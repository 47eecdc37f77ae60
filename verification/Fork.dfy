/** fork's memory (allocproc, fork and freeproc in kernel/proc.c): the child gets a copy of the parent's
address space, or everything is given back. */
module Fork {
  import opened PageTable
  import opened Vm
  import opened AddressSpace

  /** Growing a new, empty address space by copies of the parent's pages. */
  lemma Copied(mem0: Memory, kind0: Kinds, mem: Memory, kind: Kinds, child: nat, sz: nat, tf: nat, tramp: nat,
               wants: seq<Want>)
    requires Space(mem0, kind0, child, 0, tf, tramp) && Pages(sz) <= TRAPFRAME
    requires Grew(mem0, kind0, mem, kind, child, 0, Pages(sz), wants) && !TakenAsUser(kind0, kind, tf)
             && !TakenAsUser(kind0, kind, tramp)
    ensures Space(mem, kind, child, sz, tf, tramp)
  {
    GrewRoots(mem0, kind0, mem, kind, child, 0, Pages(sz), wants);
  }

  ghost predicate TakenAsUser(kind: Kinds, kind': Kinds, p: nat) {
    p in kind && p in kind' && kind[p] == Free && kind'[p].User?
  }

  lemma CopiesSame(mem0: Memory, mem: Memory, kind0: Kinds, parent: nat, n: nat)
    requires MemOk(mem0, kind0) && n <= MAXVPN && IsRoot(kind0, parent)
    requires AllMapped(mem0, kind0, parent, 0, n, true) && SameMaps(mem0, mem, kind0) && OldPages(mem0, mem, kind0)
    ensures Copies(mem, parent, n) == Copies(mem0, parent, n)
  {
    forall w | 0 <= w < n ensures Copies(mem, parent, n)[w] == Copies(mem0, parent, n)[w] {
      assert Lookup(mem, parent, w) == Lookup(mem0, parent, w);
      assert IsUser(kind0, Ppn(Lookup(mem0, parent, w)), parent, w);
    }
  }

  /** Giving back the trapframe page first, as freeproc does. */
  lemma TrapframeFreed(mem0: Memory, kind0: Kinds, mem1: Memory, kind1: Kinds, mem2: Memory, kind2: Kinds, mem3: Memory,
                       tf: nat, root: nat)
    requires tf in kind0 && kind0[tf] == Free && kind1 == kind0[tf := Other]
    requires SameMaps(mem0, mem1, kind0) && OldPages(mem0, mem1, kind0)
    requires Built(mem1, kind1, mem2, kind2, root)
    requires SameMaps(mem2, mem3, kind2) && mem3.Keys == mem2.Keys
             && forall q :: q in mem3 && q != tf ==> mem3[q] == mem2[q]
    ensures Built(mem0, kind0, mem3, kind2[tf := Free], root)
  {
    forall r, v | IsRoot(kind0, r) && 0 <= v < MAXVPN ensures Lookup(mem3, r, v) == Lookup(mem0, r, v) {
      assert IsRoot(kind1, r) && IsRoot(kind2, r);
    }
    forall p | p in kind0 && p in mem0 && !kind0[p].Free? && !kind0[p].Table? ensures mem3[p] == mem0[p] {
      assert mem1[p] == mem0[p] && kind1[p] == kind0[p];
      assert mem2[p] == mem1[p];
    }
    assert kind2[tf] == Other && kind2[tf := Free].Keys == kind2.Keys == kind1.Keys == kind0.Keys;
    assert Added(kind0, kind2[tf := Free], root);
  }

  /** What fork's failed copy leaves is still just an empty address space. */
  lemma CopyUndone(mem1: Memory, kind1: Kinds, mem2: Memory, kind2: Kinds, mem: Memory, kind: Kinds, child: nat,
                   tf: nat, tramp: nat)
    requires Built(mem1, kind1, mem2, kind2, child) && Space(mem2, kind2, child, 0, tf, tramp)
    requires Undone(mem2, kind2, mem, kind, child)
    ensures Built(mem1, kind1, mem, kind, child) && Space(mem, kind, child, 0, tf, tramp)
  {
    BuiltMore(mem1, kind1, mem2, kind2, mem, kind, child);
    assert forall w :: 0 <= w < MAXVPN ==> Lookup(mem, child, w) == Lookup(mem2, child, w);
  }

  lemma StillEmpty(mem2: Memory, kind2: Kinds, mem3: Memory, kind3: Kinds, child: nat, tf: nat, tramp: nat)
    requires Space(mem2, kind2, child, 0, tf, tramp) && SameMaps(mem2, mem3, kind2)
    requires tf in kind2 && kind2[tf] == Other && kind3 == kind2[tf := Free]
    ensures Space(mem3, kind3, child, 0, tf, tramp)
  {
    assert forall w :: 0 <= w < MAXVPN ==> Lookup(mem3, child, w) == Lookup(mem2, child, w);
  }

  /** freeproc of a process that has no memory yet. */
  method FreeProc(m: Machine, child: nat, tf: nat, ghost tramp: nat, ghost mem0: Memory, ghost kind0: Kinds,
                  ghost mem1: Memory, ghost kind1: Kinds)
    requires m.Valid() && tf in kind0 && kind0[tf] == Free && kind1 == kind0[tf := Other]
    requires SameMaps(mem0, mem1, kind0) && OldPages(mem0, mem1, kind0)
    requires Built(mem1, kind1, m.mem, m.kind, child) && Space(m.mem, m.kind, child, 0, tf, tramp)
    modifies m
    ensures m.Valid() && Restored(mem0, kind0, m.mem, m.kind)
  {
    ghost var mem2, kind2 := m.mem, m.kind;
    m.Kfree(tf, false);
    TrapframeFreed(mem0, kind0, mem1, kind1, mem2, kind2, m.mem, tf, child);
    ghost var mem3, kind3 := m.mem, m.kind;
    StillEmpty(mem2, kind2, mem3, kind3, child, tf, tramp);
    ProcFreepagetable(m, child, 0, tf, tramp);
    BuiltReleased(mem0, kind0, mem3, kind3, m.mem, m.kind, child);
  }

  /** The child's address space is the parent's: the same flags and contents, in pages of its own. */
  ghost predicate Forked(mem0: Memory, kind0: Kinds, mem: Memory, kind: Kinds, parent: nat, child: nat, sz: nat,
                         tf: nat, tramp: nat) {
    && Space(mem, kind, child, sz, tf, tramp)
    && |Copies(mem0, parent, Pages(sz))| == Pages(sz)
    && (forall w :: 0 <= w < Pages(sz) ==> HasPage(mem, kind, child, w, Copies(mem0, parent, Pages(sz))[w]))
    && tf in kind0 && kind0[tf] == Free && Added(kind0[tf := Other], kind, child)
    && SameMaps(mem0, mem, kind0) && OldPages(mem0, mem, kind0)
  }

  /** allocproc's trapframe page, page table and fork's copy: a full copy; or nothing is lost, and then fewer pages
      were free than one for the trapframe, five for the tables of the empty space and three for each page. */
  method ForkMemory(m: Machine, parent: nat, sz: nat, ghost ptf: nat, tramp: nat) returns (child: nat, tf: nat)
    requires m.Valid() && Space(m.mem, m.kind, parent, sz, ptf, tramp) && (tramp in m.kind ==> m.kind[tramp] == Other)
    modifies m
    ensures m.Valid()
    ensures child == 0 ==> Restored(old(m.mem), old(m.kind), m.mem, m.kind) && |old(m.free)| < 6 + 3 * Pages(sz)
    ensures child != 0 ==> Forked(old(m.mem), old(m.kind), m.mem, m.kind, parent, child, sz, tf, tramp)
  {
    ghost var mem0, kind0 := m.mem, m.kind;
    child := 0;
    tf := m.Kalloc();
    if tf == 0 { return; }
    child := CopySpace(m, parent, sz, tf, tramp, mem0, kind0);
  }

  method CopySpace(m: Machine, parent: nat, sz: nat, tf: nat, tramp: nat, ghost mem0: Memory, ghost kind0: Kinds)
    returns (child: nat)
    requires m.Valid() && tf in kind0 && kind0[tf] == Free && m.kind == kind0[tf := Other]
             && (tramp in kind0 ==> kind0[tramp] == Other)
    requires SameMaps(mem0, m.mem, kind0) && OldPages(mem0, m.mem, kind0) && MemOk(mem0, kind0)
    requires IsRoot(kind0, parent) && Pages(sz) <= TRAPFRAME && AllMapped(mem0, kind0, parent, 0, Pages(sz), true)
    modifies m
    ensures m.Valid()
    ensures child == 0 ==> Restored(mem0, kind0, m.mem, m.kind) && |old(m.free)| < 5 + 3 * Pages(sz)
    ensures child != 0 ==> Forked(mem0, kind0, m.mem, m.kind, parent, child, sz, tf, tramp)
  {
    ghost var mem1, kind1 := m.mem, m.kind;
    child := ProcPagetable(m, tf, tramp);
    if child == 0 {
      NoPagetable(m, tf, mem0, kind0, mem1, kind1);
      return;
    }
    var ok := CopyPages(m, parent, child, sz, tf, tramp, mem0, kind0, mem1, kind1);
    if !ok {
      FreeProc(m, child, tf, tramp, mem0, kind0, mem1, kind1);
      child := 0;
    }
  }

  /** freeproc of a process that has only its trapframe. */
  method NoPagetable(m: Machine, tf: nat, ghost mem0: Memory, ghost kind0: Kinds, ghost mem1: Memory,
                     ghost kind1: Kinds)
    requires m.Valid() && tf in kind0 && kind0[tf] == Free && kind1 == kind0[tf := Other]
    requires SameMaps(mem0, mem1, kind0) && OldPages(mem0, mem1, kind0) && Restored(mem1, kind1, m.mem, m.kind)
    modifies m
    ensures m.Valid() && Restored(mem0, kind0, m.mem, m.kind)
  {
    ghost var mem2 := m.mem;
    m.Kfree(tf, false);
    assert m.kind == kind0;
    MapsTrans(mem0, mem1, mem2, kind0, kind1);
    MapsTrans(mem0, mem2, m.mem, kind0, kind1);
  }

  /** fork's call of uvmcopy. */
  method CopyPages(m: Machine, parent: nat, child: nat, sz: nat, ghost tf: nat, ghost tramp: nat, ghost mem0: Memory,
                   ghost kind0: Kinds, ghost mem1: Memory, ghost kind1: Kinds) returns (ok: bool)
    requires m.Valid() && tf in kind0 && kind0[tf] == Free && kind1 == kind0[tf := Other]
             && (tramp in kind0 ==> kind0[tramp] == Other)
    requires SameMaps(mem0, mem1, kind0) && OldPages(mem0, mem1, kind0) && MemOk(mem0, kind0)
    requires IsRoot(kind0, parent) && Pages(sz) <= TRAPFRAME && AllMapped(mem0, kind0, parent, 0, Pages(sz), true)
    requires Built(mem1, kind1, m.mem, m.kind, child) && Space(m.mem, m.kind, child, 0, tf, tramp)
    modifies m
    ensures m.Valid()
    ensures ok ==> Forked(mem0, kind0, m.mem, m.kind, parent, child, sz, tf, tramp)
    ensures !ok ==> Built(mem1, kind1, m.mem, m.kind, child) && Space(m.mem, m.kind, child, 0, tf, tramp)
                    && |old(m.free)| < 3 * Pages(sz)
  {
    ghost var mem2, kind2 := m.mem, m.kind;
    BeforeCopy(mem0, kind0, mem1, kind1, mem2, kind2, parent, child, sz, tf);
    StillMapped(mem0, kind0, mem2, kind2, parent, Pages(sz));
    ok := m.Uvmcopy(parent, child, sz);
    if ok {
      AfterCopy(mem0, kind0, kind1, mem2, kind2, m.mem, m.kind, parent, child, sz, tf, tramp);
    } else {
      CopyUndone(mem1, kind1, mem2, kind2, m.mem, m.kind, child, tf, tramp);
    }
  }

  lemma BeforeCopy(mem0: Memory, kind0: Kinds, mem1: Memory, kind1: Kinds, mem2: Memory, kind2: Kinds, parent: nat,
                   child: nat, sz: nat, tf: nat)
    requires MemOk(mem0, kind0) && tf in kind0 && kind0[tf] == Free && kind1 == kind0[tf := Other]
    requires SameMaps(mem0, mem1, kind0) && OldPages(mem0, mem1, kind0) && Built(mem1, kind1, mem2, kind2, child)
    requires IsRoot(kind0, parent) && Pages(sz) <= TRAPFRAME && AllMapped(mem0, kind0, parent, 0, Pages(sz), true)
    ensures IsRoot(kind2, parent) && parent != child
    ensures SameMaps(mem0, mem2, kind0) && OldPages(mem0, mem2, kind0)
    ensures Copies(mem2, parent, Pages(sz)) == Copies(mem0, parent, Pages(sz))
  {
    MapsTrans(mem0, mem1, mem2, kind0, kind1);
    CopiesSame(mem0, mem2, kind0, parent, Pages(sz));
  }

  lemma StillMapped(mem0: Memory, kind0: Kinds, mem: Memory, kind: Kinds, root: nat, n: nat)
    requires IsRoot(kind0, root) && n <= MAXVPN && AllMapped(mem0, kind0, root, 0, n, true)
             && SameMaps(mem0, mem, kind0)
    requires forall p :: p in kind0 && kind0[p].User? ==> p in kind && kind[p] == kind0[p]
    ensures AllMapped(mem, kind, root, 0, n, true)
  {
    assert forall w :: 0 <= w < MAXVPN ==> Lookup(mem, root, w) == Lookup(mem0, root, w);
  }

  lemma AfterCopy(mem0: Memory, kind0: Kinds, kind1: Kinds, mem2: Memory, kind2: Kinds, mem: Memory, kind: Kinds,
                  parent: nat, child: nat, sz: nat, tf: nat, tramp: nat)
    requires tf in kind0 && kind0[tf] == Free && kind1 == kind0[tf := Other]
             && (tramp in kind0 ==> kind0[tramp] == Other)
    requires SameMaps(mem0, mem2, kind0) && OldPages(mem0, mem2, kind0) && Pages(sz) <= TRAPFRAME
    requires Fresh(kind1, child) && Added(kind1, kind2, child) && Space(mem2, kind2, child, 0, tf, tramp)
    requires Grew(mem2, kind2, mem, kind, child, 0, Pages(sz), Copies(mem0, parent, Pages(sz)))
    ensures Forked(mem0, kind0, mem, kind, parent, child, sz, tf, tramp)
  {
    Copied(mem2, kind2, mem, kind, child, sz, tf, tramp, Copies(mem0, parent, Pages(sz)));
    forall r, v | IsRoot(kind0, r) && 0 <= v < MAXVPN ensures Lookup(mem, r, v) == Lookup(mem0, r, v) {
      assert IsRoot(kind2, r) && r != child;
    }
  }
}
