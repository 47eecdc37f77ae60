/** Whole address spaces: creating, copying and tearing down a process's page table (kernel/vm.c,
kernel/proc.c).  However an operation ends, every page of physical memory is accounted for: after a
failure the ledger is exactly what it was before. */
module AddressSpace {
  import opened PageTable
  import opened FreeWalk
  import opened Vm

  const TRAMPOLINE: nat := MAXVPN - 1
  const TRAPFRAME: nat := MAXVPN - 2

  /** The page serves address space `root`. */
  predicate Of(k: Kind, root: nat) {
    (k.Table? || k.User?) && k.root == root
  }

  /** Exactly the pages of `root` have become free. */
  ghost predicate Released(kind: Kinds, kind': Kinds, root: nat) {
    && kind'.Keys == kind.Keys
    && forall p :: p in kind ==> kind'[p] == if Of(kind[p], root) then Free else kind[p]
  }

  /** Free pages have come to serve `root`; nothing else has changed hands. */
  ghost predicate Added(kind: Kinds, kind': Kinds, root: nat) {
    && kind'.Keys == kind.Keys
    && forall p :: p in kind ==> kind'[p] == kind[p] || (kind[p] == Free && Of(kind'[p], root))
  }

  ghost predicate Fresh(kind: Kinds, root: nat) {
    forall p :: p in kind ==> !Of(kind[p], root)
  }

  /** What was added to a new address space and then released leaves no trace. */
  lemma AddedReleased(kind: Kinds, kind1: Kinds, kind2: Kinds, root: nat)
    requires Fresh(kind, root) && Added(kind, kind1, root) && Released(kind1, kind2, root)
    ensures kind2 == kind
  {
  }

  /** A page that is not a table page is nobody's root. */
  lemma NotARoot(mem: Memory, kind: Kinds, root: nat)
    requires Inv(mem, kind) && root in kind && !kind[root].Table?
    ensures Fresh(kind, root)
  {
    forall p | p in kind ensures !Of(kind[p], root) {
      if Of(kind[p], root) {
        assert AnchorOk(mem, kind, p);
        var t := if kind[p].Table? then p else kind[p].up;
        assert AnchorOk(mem, kind, t);
        SomePage(kind[t].level, kind[t].prefix);
        NodeFinds(mem, kind, t, Start(kind[t].level, kind[t].prefix));
      }
    }
  }

  /** The first virtual page that a table page of this place resolves. */
  function Start(level: nat, prefix: nat): nat {
    if level == 0 then prefix * 512 else if level == 1 then prefix * 512 * 512 else prefix * 512 * 512 * 512
  }

  lemma SomePage(level: nat, prefix: nat)
    requires level <= 2 && PrefixOk(level, prefix)
    ensures Start(level, prefix) < MAXVPN && Prefix(Start(level, prefix), level) == prefix
  {
  }

  lemma VpnBound(mem: Memory, kind: Kinds, p: nat)
    requires Inv(mem, kind) && p in kind && kind[p].User?
    ensures kind[p].vpn < MAXVPN
  {
    assert AnchorOk(mem, kind, p);
    assert AnchorOk(mem, kind, kind[p].up);
  }

  /** The translations of every address space but `root` are the same. */
  ghost predicate OtherMaps(mem: Memory, mem': Memory, kind: Kinds, root: nat) {
    forall r, v :: IsRoot(kind, r) && r != root && 0 <= v < MAXVPN ==> Lookup(mem', r, v) == Lookup(mem, r, v)
  }

  // ---- uvmcreate ------------------------------------------------------------------------------

  lemma NewRoot(mem: Memory, kind: Kinds, root: nat)
    requires Inv(mem, kind) && root in kind && kind[root] == Other && ZeroPage(mem[root])
    ensures Inv(mem, kind[root := Table(root, 2, 0, 0)]) && Unused(mem, root, 0, MAXVPN)
  {
    var kind' := kind[root := Table(root, 2, 0, 0)];
    forall p, i | p in kind' && kind'[p].Table? && 0 <= i < ENTRIES ensures EntryOk(mem, kind', p, i) {
      if p != root {
        assert EntryOk(mem, kind, p, i);
      }
    }
    forall p | p in kind' ensures AnchorOk(mem, kind', p) {
      assert AnchorOk(mem, kind, p);
    }
    forall v | 0 <= v < MAXVPN ensures Lookup(mem, root, v) == 0 {
      assert Node(mem, root, v, 1) == Below(mem, root, Index(v, 2)) == 0;
      DeadPath(mem, root, v, 1);
    }
  }

  /** uvmcreate: an empty page table, or 0. */
  method Uvmcreate(m: Machine) returns (root: nat)
    requires m.Valid()
    modifies m
    ensures m.Valid() && SameMaps(old(m.mem), m.mem, old(m.kind)) && OldPages(old(m.mem), m.mem, old(m.kind))
    ensures root == 0 ==> m.kind == old(m.kind) && |m.free| == |old(m.free)| == 0
    ensures root != 0 ==>
              && root in old(m.kind) && old(m.kind)[root] == Free && m.kind == old(m.kind)[root := Table(root, 2, 0, 0)]
              && Unused(m.mem, root, 0, MAXVPN) && |m.free| == |old(m.free)| - 1
  {
    root := m.FilledPage(Zeros());
    if root != 0 {
      NewRoot(m.mem, m.kind, root);
      RetagTwice(old(m.kind), root, Other, Table(root, 2, 0, 0));
      ListsKept(m.kind, m.kind[root := Table(root, 2, 0, 0)], m.free);
      m.kind := m.kind[root := Table(root, 2, 0, 0)];
    }
  }

  lemma RetagTwice(kind: Kinds, p: nat, a: Kind, b: Kind)
    ensures kind[p := a][p := b] == kind[p := b]
  {
  }

  // ---- uvmfree --------------------------------------------------------------------------------

  /** Nothing is mapped: freewalk may start. */
  lemma ReadyToFree(mem: Memory, kind: Kinds, root: nat)
    requires Inv(mem, kind) && IsRoot(kind, root) && Unused(mem, root, 0, MAXVPN)
    ensures InvWhile(mem, kind, true) && Cut(kind, root, root, 2, 0) && Bare(mem, kind, root)
  {
    forall p | p in kind ensures AnchorOk(mem, kind, p) && !Detached(kind[p]) {
      assert AnchorOk(mem, kind, p);
    }
    forall q, i {:trigger mem[q][i]} | q in kind && kind[q].Table? && kind[q].root == root && kind[q].level == 0
      && 0 <= i < ENTRIES
      ensures !IsValid(mem[q][i])
    {
      var v := kind[q].prefix * 512 + i;
      NodeFinds(mem, kind, q, v);
      assert Lookup(mem, root, v) == 0;
    }
  }

  /** freewalk of the whole tree frees every table page of `root`, and leaves the other trees alone. */
  lemma TreeFreed(mem: Memory, kind: Kinds, mem': Memory, kind': Kinds, root: nat)
    requires Inv(mem, kind) && InvWhile(mem', kind', true)
    requires Freed(kind, kind', root, 2, 0) && Untouched(mem, mem', kind, kind')
    ensures Inv(mem', kind') && OtherMaps(mem, mem', kind, root)
    ensures forall p :: p in kind ==> kind'[p] == if kind[p].Table? && kind[p].root == root then Free else kind[p]
  {
    forall p | p in kind ensures kind'[p] == if kind[p].Table? && kind[p].root == root then Free else kind[p] {
      assert AnchorOk(mem, kind, p);
    }
    forall p | p in kind' ensures AnchorOk(mem', kind', p) {
      assert AnchorOk(mem, kind, p);
      assert Detached(kind'[p]) || AnchorOk(mem', kind', p);
    }
    forall r, v | IsRoot(kind, r) && r != root && 0 <= v < MAXVPN ensures Lookup(mem', r, v) == Lookup(mem, r, v) {
      LookupSame(mem, mem', kind, r, v);
    }
  }

  /** Unmapping the user pages and then freeing the tree releases exactly the pages of `root`. */
  lemma UnmapThenFree(mem0: Memory, kind0: Kinds, kind1: Kinds, kind2: Kinds, root: nat, n: nat)
    requires Inv(mem0, kind0) && n <= MAXVPN && Unused(mem0, root, n, MAXVPN - n)
    requires Unmapped(kind0, kind1, root, 0, n) && kind2.Keys == kind1.Keys
    requires forall p :: p in kind1 ==> kind2[p] == if kind1[p].Table? && kind1[p].root == root then Free else kind1[p]
    ensures Released(kind0, kind2, root)
  {
    forall p | p in kind0 && kind0[p].User? && kind0[p].root == root ensures kind0[p].vpn < n {
      VpnBound(mem0, kind0, p);
      UserUnique(mem0, kind0, p, root, kind0[p].vpn);
    }
  }

  /** Maps and contents over the two phases. */
  lemma FreeFrame(mem0: Memory, kind0: Kinds, mem1: Memory, kind1: Kinds, mem2: Memory, kind2: Kinds, root: nat, n: nat)
    requires RangeCleared(mem0, mem1, kind0, root, 0, n) && Kept(mem0, mem1, kind0, kind1)
    requires OtherMaps(mem1, mem2, kind1, root) && Untouched(mem1, mem2, kind1, kind2)
    requires Unmapped(kind0, kind1, root, 0, n) && Released(kind0, kind2, root)
    ensures OtherMaps(mem0, mem2, kind0, root) && Kept(mem0, mem2, kind0, kind2)
  {
    assert forall r :: IsRoot(kind0, r) ==> IsRoot(kind1, r);
  }

  /** uvmfree: give back a process's memory and its page table. */
  method Uvmfree(m: Machine, root: nat, sz: nat)
    requires m.Valid() && IsRoot(m.kind, root) && Pages(sz) <= MAXVPN
    requires AllMapped(m.mem, m.kind, root, 0, Pages(sz), true) && Unused(m.mem, root, Pages(sz), MAXVPN - Pages(sz))
    modifies m
    ensures m.Valid() && Released(old(m.kind), m.kind, root)
    ensures OtherMaps(old(m.mem), m.mem, old(m.kind), root) && Kept(old(m.mem), m.mem, old(m.kind), m.kind)
  {
    ghost var mem0, kind0 := m.mem, m.kind;
    if sz > 0 {
      m.Uvmunmap(root, 0, Pages(sz), true);
    }
    ghost var mem1, kind1 := m.mem, m.kind;
    assert Unused(mem1, root, 0, MAXVPN);
    ReadyToFree(mem1, kind1, root);
    m.Freewalk(root, root, 2, 0);
    TreeFreed(mem1, kind1, m.mem, m.kind, root);
    UnmapThenFree(mem0, kind0, kind1, m.kind, root, Pages(sz));
    FreeFrame(mem0, kind0, mem1, kind1, m.mem, m.kind, root, Pages(sz));
  }

  // ---- proc_pagetable and proc_freepagetable ----------------------------------------------------

  /** An address space of sz bytes: its pages, then nothing, then the trapframe and the trampoline. */
  ghost predicate Space(mem: Memory, kind: Kinds, root: nat, sz: nat, tf: nat, tramp: nat) {
    && IsRoot(kind, root) && Pages(sz) <= TRAPFRAME
    && AllMapped(mem, kind, root, 0, Pages(sz), true) && Unused(mem, root, Pages(sz), TRAPFRAME - Pages(sz))
    && Lookup(mem, root, TRAPFRAME) == tf * 1024 + 7 && Lookup(mem, root, TRAMPOLINE) == tramp * 1024 + 11
    && NoUser(kind, tf) && NoUser(kind, tramp)
  }

  ghost predicate NoUser(kind: Kinds, p: nat) {
    p in kind ==> !kind[p].User?
  }

  /** A new address space is under construction; all that was there before is as it was. */
  ghost predicate Built(mem0: Memory, kind0: Kinds, mem: Memory, kind: Kinds, root: nat) {
    && Fresh(kind0, root) && Added(kind0, kind, root) && IsRoot(kind, root)
    && SameMaps(mem0, mem, kind0) && OldPages(mem0, mem, kind0)
  }

  /** Nothing has changed but the order of the free list and the contents of free pages. */
  ghost predicate Restored(mem0: Memory, kind0: Kinds, mem: Memory, kind: Kinds) {
    kind == kind0 && SameMaps(mem0, mem, kind0) && OldPages(mem0, mem, kind0)
  }

  lemma BuiltReleased(mem0: Memory, kind0: Kinds, mem1: Memory, kind1: Kinds, mem2: Memory, kind2: Kinds, root: nat)
    requires Built(mem0, kind0, mem1, kind1, root)
    requires Released(kind1, kind2, root) && OtherMaps(mem1, mem2, kind1, root) && Kept(mem1, mem2, kind1, kind2)
    ensures Restored(mem0, kind0, mem2, kind2)
  {
    AddedReleased(kind0, kind1, kind2, root);
    forall r, v | IsRoot(kind0, r) && 0 <= v < MAXVPN ensures Lookup(mem2, r, v) == Lookup(mem0, r, v) {
      assert r != root && IsRoot(kind1, r);
    }
  }

  /** Translations inside `root` and new table pages keep an address space under construction. */
  lemma BuiltMore(mem0: Memory, kind0: Kinds, mem1: Memory, kind1: Kinds, mem2: Memory, kind2: Kinds, root: nat)
    requires Built(mem0, kind0, mem1, kind1, root)
    requires Added(kind1, kind2, root) && OtherMaps(mem1, mem2, kind1, root)
    requires forall p :: p in kind0 && !kind0[p].Free? && !kind0[p].Table? && p in mem1 ==>
                           p in mem2 && mem2[p] == mem1[p]
    requires mem2.Keys == mem1.Keys
    ensures Built(mem0, kind0, mem2, kind2, root)
  {
    forall r, v | IsRoot(kind0, r) && 0 <= v < MAXVPN ensures Lookup(mem2, r, v) == Lookup(mem0, r, v) {
      assert r != root && IsRoot(kind1, r);
    }
  }

  /** mappages of one page that the address space does not own. */
  method MapShared(m: Machine, root: nat, v: nat, ppn: nat, flags: nat, ghost mem0: Memory, ghost kind0: Kinds)
    returns (ok: bool)
    requires m.Valid() && Built(mem0, kind0, m.mem, m.kind, root) && v < MAXVPN && Lookup(m.mem, root, v) == 0
    requires IsValid(flags) && 1 < flags < 1024
    modifies m
    ensures m.Valid() && Built(mem0, kind0, m.mem, m.kind, root) && SameUsers(old(m.kind), m.kind)
    ensures MapsSet(old(m.mem), m.mem, old(m.kind), root, v, if ok then ppn * 1024 + flags else 0)
            && |m.free| <= |old(m.free)|
    ensures if ok then |old(m.free)| - 2 <= |m.free| else |old(m.free)| <= 1
  {
    ghost var mem1, kind1 := m.mem, m.kind;
    assert v * PGSIZE / PGSIZE == v && (v * PGSIZE + PGSIZE - 1) / PGSIZE == v && ppn * PGSIZE / PGSIZE == ppn;
    assert WithValid(flags - 1) == flags;
    ghost var done;
    ok, done := m.Mappages(root, v * PGSIZE, PGSIZE, ppn * PGSIZE, flags - 1, false);
    assert done == if ok then 1 else 0;
    BuiltMore(mem0, kind0, mem1, kind1, m.mem, m.kind, root);
  }

  ghost predicate SameUsers(kind: Kinds, kind': Kinds) {
    forall p :: p in kind' && kind'[p].User? ==> p in kind && kind[p].User?
  }

  /** proc_pagetable: a page table with only the trampoline and the trapframe; or 0, and then not one
      page has been lost. */
  method ProcPagetable(m: Machine, tf: nat, tramp: nat) returns (root: nat)
    requires m.Valid() && NoUser(m.kind, tf) && NoUser(m.kind, tramp)
    modifies m
    ensures m.Valid()
    ensures root == 0 ==> Restored(old(m.mem), old(m.kind), m.mem, m.kind) && |old(m.free)| < 5
    ensures root != 0 ==> Built(old(m.mem), old(m.kind), m.mem, m.kind, root)
                          && Space(m.mem, m.kind, root, 0, tf, tramp)
    ensures root != 0 ==> |old(m.free)| - 5 <= |m.free| <= |old(m.free)|
  {
    ghost var mem0, kind0 := m.mem, m.kind;
    root := EmptyTable(m);
    if root == 0 { return; }
    var ok := MapTrampoline(m, root, tramp, mem0, kind0);
    if ok {
      ok := MapTrapframe(m, root, tf, tramp, mem0, kind0);
    }
    if !ok {
      Abandon(m, root, mem0, kind0);
      return 0;
    }
    EmptySpace(kind0, m.mem, m.kind, root, tf, tramp);
  }

  /** uvmcreate, as the start of a new address space. */
  method EmptyTable(m: Machine) returns (root: nat)
    requires m.Valid()
    modifies m
    ensures m.Valid()
    ensures root == 0 ==> Restored(old(m.mem), old(m.kind), m.mem, m.kind)
    ensures root != 0 ==> Built(old(m.mem), old(m.kind), m.mem, m.kind, root) && Only(m.mem, root, 0, 0)
    ensures SameUsers(old(m.kind), m.kind) && |m.free| <= |old(m.free)|
    ensures if root == 0 then old(m.free) == [] else |old(m.free)| - 1 <= |m.free|
  {
    ghost var mem0, kind0 := m.mem, m.kind;
    root := Uvmcreate(m);
    if root != 0 {
      NotARoot(mem0, kind0, root);
    }
  }

  lemma EmptySpace(kind0: Kinds, mem: Memory, kind: Kinds, root: nat, tf: nat, tramp: nat)
    requires Added(kind0, kind, root) && IsRoot(kind, root) && Only(mem, root, tramp * 1024 + 11, tf * 1024 + 7)
    requires NoUser(kind, tf) && NoUser(kind, tramp)
    ensures Space(mem, kind, root, 0, tf, tramp)
  {
  }

  /** Apart from the trampoline and the trapframe nothing is mapped. */
  ghost predicate Only(mem: Memory, root: nat, tramp: nat, tf: nat) {
    forall w :: 0 <= w < MAXVPN ==> Lookup(mem, root, w) == if w == TRAMPOLINE then tramp
                                    else if w == TRAPFRAME then tf else 0
  }

  method MapTrampoline(m: Machine, root: nat, tramp: nat, ghost mem0: Memory, ghost kind0: Kinds) returns (ok: bool)
    requires m.Valid() && Built(mem0, kind0, m.mem, m.kind, root) && Only(m.mem, root, 0, 0)
    modifies m
    ensures m.Valid() && Built(mem0, kind0, m.mem, m.kind, root) && SameUsers(old(m.kind), m.kind)
    ensures Only(m.mem, root, if ok then tramp * 1024 + 11 else 0, 0) && |m.free| <= |old(m.free)|
    ensures if ok then |old(m.free)| - 2 <= |m.free| else |old(m.free)| <= 1
  {
    ok := MapShared(m, root, TRAMPOLINE, tramp, 11, mem0, kind0);
  }

  /** The second mapping; if it fails the first is undone. */
  method MapTrapframe(m: Machine, root: nat, tf: nat, tramp: nat, ghost mem0: Memory, ghost kind0: Kinds)
    returns (ok: bool)
    requires m.Valid() && Built(mem0, kind0, m.mem, m.kind, root) && Only(m.mem, root, tramp * 1024 + 11, 0)
    requires NoUser(m.kind, tramp)
    modifies m
    ensures m.Valid() && Built(mem0, kind0, m.mem, m.kind, root) && SameUsers(old(m.kind), m.kind)
    ensures if ok then Only(m.mem, root, tramp * 1024 + 11, tf * 1024 + 7) else Only(m.mem, root, 0, 0)
    ensures if ok then |old(m.free)| - 2 <= |m.free| <= |old(m.free)| else |old(m.free)| <= 1
  {
    ok := MapShared(m, root, TRAPFRAME, tf, 7, mem0, kind0);
    if !ok {
      Unshare(m, root, TRAMPOLINE, tramp, mem0, kind0);
    }
  }

  /** uvmunmap of one page that the address space does not own. */
  method Unshare(m: Machine, root: nat, v: nat, ghost ppn: nat, ghost mem0: Memory, ghost kind0: Kinds)
    requires m.Valid() && Built(mem0, kind0, m.mem, m.kind, root) && v < MAXVPN
    requires Lookup(m.mem, root, v) / 1024 == ppn && Lookup(m.mem, root, v) != 0 && NoUser(m.kind, ppn)
    modifies m
    ensures m.Valid() && Built(mem0, kind0, m.mem, m.kind, root) && m.kind == old(m.kind)
    ensures MapsSet(old(m.mem), m.mem, old(m.kind), root, v, 0)
  {
    ghost var mem1, kind1 := m.mem, m.kind;
    m.Uvmunmap(root, v, 1, false);
    BuiltMore(mem0, kind0, mem1, kind1, m.mem, m.kind, root);
  }

  /** uvmfree of an empty address space under construction. */
  method Abandon(m: Machine, root: nat, ghost mem0: Memory, ghost kind0: Kinds)
    requires m.Valid() && Built(mem0, kind0, m.mem, m.kind, root) && Only(m.mem, root, 0, 0)
    modifies m
    ensures m.Valid() && Restored(mem0, kind0, m.mem, m.kind)
  {
    ghost var mem1, kind1 := m.mem, m.kind;
    Uvmfree(m, root, 0);
    BuiltReleased(mem0, kind0, mem1, kind1, m.mem, m.kind, root);
  }

  /** proc_freepagetable: exactly the pages of the address space become free. */
  method ProcFreepagetable(m: Machine, root: nat, sz: nat, ghost tf: nat, ghost tramp: nat)
    requires m.Valid() && Space(m.mem, m.kind, root, sz, tf, tramp)
    modifies m
    ensures m.Valid() && Released(old(m.kind), m.kind, root)
    ensures OtherMaps(old(m.mem), m.mem, old(m.kind), root) && Kept(old(m.mem), m.mem, old(m.kind), m.kind)
  {
    ghost var mem0, kind0 := m.mem, m.kind;
    LeafPte(tramp, 11);
    LeafPte(tf, 7);
    m.Uvmunmap(root, TRAMPOLINE, 1, false);
    ghost var mem1 := m.mem;
    m.Uvmunmap(root, TRAPFRAME, 1, false);
    ghost var mem2 := m.mem;
    OnlyUsersLeft(mem0, mem1, mem2, kind0, root, sz, tf, tramp);
    Uvmfree(m, root, sz);
    TeardownFrame(mem0, mem1, mem2, m.mem, kind0, m.kind, root);
  }

  lemma OnlyUsersLeft(mem0: Memory, mem1: Memory, mem2: Memory, kind: Kinds, root: nat, sz: nat, tf: nat, tramp: nat)
    requires Space(mem0, kind, root, sz, tf, tramp)
    requires RangeCleared(mem0, mem1, kind, root, TRAMPOLINE, 1) && RangeCleared(mem1, mem2, kind, root, TRAPFRAME, 1)
    ensures AllMapped(mem2, kind, root, 0, Pages(sz), true) && Unused(mem2, root, Pages(sz), MAXVPN - Pages(sz))
  {
  }

  lemma TeardownFrame(mem0: Memory, mem1: Memory, mem2: Memory, mem3: Memory, kind0: Kinds, kind: Kinds, root: nat)
    requires RangeCleared(mem0, mem1, kind0, root, TRAMPOLINE, 1) && RangeCleared(mem1, mem2, kind0, root, TRAPFRAME, 1)
    requires Kept(mem0, mem1, kind0, kind0) && Kept(mem1, mem2, kind0, kind0)
    requires OtherMaps(mem2, mem3, kind0, root) && Kept(mem2, mem3, kind0, kind)
    ensures OtherMaps(mem0, mem3, kind0, root) && Kept(mem0, mem3, kind0, kind)
  {
  }
}
