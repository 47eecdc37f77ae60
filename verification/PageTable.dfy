/** Sv39 page tables (kernel/vm.c, section 4.4 of the RISC-V Privileged Architecture, version 1.12):
a three-level tree of table pages in physical memory represents a flat map from virtual pages.

Pages are named by page number (address / PGSIZE); 0 plays the null pointer.  A PTE is
ppn * 1024 + flags, the value of PA2PTE(pa) | flags. */
module PageTable {
  const PGSIZE: nat := 4096
  const ENTRIES: nat := 512
  const MAXVPN: nat := 512 * 512 * 256   // MAXVA / PGSIZE

  predicate IsValid(pte: nat) {
    pte % 2 == 1
  }

  function Ppn(pte: nat): nat {
    pte / 1024
  }

  function Flags(pte: nat): nat {
    pte % 1024
  }

  /** PX(level, va). */
  function Index(v: nat, level: nat): (i: nat)
    ensures i < ENTRIES
  {
    if level == 0 then v % 512 else if level == 1 then v / 512 % 512 else v / 512 / 512 % 512
  }

  /** The bits of v above the part that a table page of this level resolves. */
  function Prefix(v: nat, level: nat): nat {
    if level == 0 then v / 512 else if level == 1 then v / 512 / 512 else v / 512 / 512 / 512
  }

  /** What a page of physical memory is used for.  `up` is the table page that refers to it. */
  datatype Kind =
    | Free
    | Table(root: nat, level: nat, prefix: nat, up: nat)
    | User(root: nat, vpn: nat, up: nat)
    | Other

  type Memory = map<nat, seq<nat>>
  type Kinds = map<nat, Kind>

  ghost predicate MemOk(mem: Memory, kind: Kinds) {
    && mem.Keys == kind.Keys && 0 !in mem
    && forall p :: p in mem ==> |mem[p]| == ENTRIES
  }

  /** Entry i of table page p: above level 0 it leads to the table page of the next level for the
      longer prefix; at level 0 it is a leaf. */
  ghost predicate EntryOk(mem: Memory, kind: Kinds, p: nat, i: nat)
    requires MemOk(mem, kind) && p in kind && kind[p].Table? && i < ENTRIES
  {
    var k, pte := kind[p], mem[p][i];
    IsValid(pte) ==>
      if k.level == 0 then Flags(pte) != 1
      else Flags(pte) == 1 && Ppn(pte) in kind && kind[Ppn(pte)] == Table(k.root, k.level - 1, k.prefix * 512 + i, p)
  }

  /** p is referred to by its `up`, so it is part of the tree of its root. */
  ghost predicate AnchorOk(mem: Memory, kind: Kinds, p: nat)
    requires MemOk(mem, kind) && p in kind
  {
    match kind[p]
    case Table(root, level, prefix, up) =>
      PrefixOk(level, prefix)
      && if level == 2 then root == p else level < 2 && PointsTo(mem, kind, up, root, level + 1, prefix, p)
    case User(root, vpn, up) => PointsTo(mem, kind, up, root, 0, vpn, p)
    case _ => true
  }

  /** Only the half of the Sv39 space below MAXVA is ever used. */
  predicate PrefixOk(level: nat, prefix: nat) {
    if level == 0 then prefix < 512 * 256 else if level == 1 then prefix < 256 else prefix == 0
  }

  /** Table page q, at `level` of `root`, has the entry for x and it names page p. */
  ghost predicate PointsTo(mem: Memory, kind: Kinds, q: nat, root: nat, level: nat, x: nat, p: nat)
    requires MemOk(mem, kind)
  {
    && q in kind && kind[q].Table? && kind[q].root == root && kind[q].level == level && kind[q].prefix == x / 512
    && IsValid(mem[q][x % 512]) && Ppn(mem[q][x % 512]) == p
  }

  /** The invariant; with `loose`, a subtree that freewalk is taking apart may have lost its parent. */
  ghost predicate InvWhile(mem: Memory, kind: Kinds, loose: bool) {
    && MemOk(mem, kind)
    && (forall p, i {:trigger EntryOk(mem, kind, p, i)} ::
          p in kind && kind[p].Table? && 0 <= i < ENTRIES ==> EntryOk(mem, kind, p, i))
    && (forall p {:trigger AnchorOk(mem, kind, p)} ::
        p in kind ==> (loose && Detached(kind[p])) || AnchorOk(mem, kind, p))
  }

  predicate Detached(k: Kind) {
    k.Table? && k.level < 2 && k.up == 0
  }

  ghost predicate Inv(mem: Memory, kind: Kinds) {
    InvWhile(mem, kind, false)
  }

  ghost predicate IsRoot(kind: Kinds, root: nat) {
    root in kind && kind[root].Table? && kind[root].root == root && kind[root].level == 2 && kind[root].prefix == 0
  }

  // ---- Walking down ---------------------------------------------------------------------------

  /** One level of the walk: the page that entry i of page p names, or 0. */
  function Below(mem: Memory, p: nat, i: nat): nat {
    if p in mem && i < |mem[p]| && IsValid(mem[p][i]) then Ppn(mem[p][i]) else 0
  }

  /** The table page of `level` on the path to v, or 0. */
  function Node(mem: Memory, root: nat, v: nat, level: nat): nat
    decreases 2 - level
  {
    if level >= 2 then root else Below(mem, Node(mem, root, v, level + 1), Index(v, level + 1))
  }

  /** The flat map: the PTE that translates virtual page v, or 0 if v is not mapped. */
  function Lookup(mem: Memory, root: nat, v: nat): nat {
    var p := Node(mem, root, v, 0);
    if p in mem && v % 512 < |mem[p]| && IsValid(mem[p][v % 512]) then mem[p][v % 512] else 0
  }

  /** A page on the path to v is the table page that its place in the tree says. */
  lemma NodeKind(mem: Memory, kind: Kinds, root: nat, v: nat, level: nat)
    requires Inv(mem, kind) && IsRoot(kind, root) && v < MAXVPN && level <= 2
    ensures var p := Node(mem, root, v, level);
            p != 0 ==> p in kind && kind[p].Table? && kind[p].root == root && kind[p].level == level
                       && kind[p].prefix == Prefix(v, level)
    decreases 2 - level
  {
    if level < 2 {
      NodeKind(mem, kind, root, v, level + 1);
      var q := Node(mem, root, v, level + 1);
      if q != 0 {
        assert EntryOk(mem, kind, q, Index(v, level + 1));
      }
    }
  }

  /** Conversely the walk to v finds every table page of its path. */
  lemma NodeFinds(mem: Memory, kind: Kinds, p: nat, v: nat)
    requires Inv(mem, kind) && p in kind && kind[p].Table? && v < MAXVPN && kind[p].level <= 2
    requires kind[p].prefix == Prefix(v, kind[p].level)
    ensures IsRoot(kind, kind[p].root)
    ensures Node(mem, kind[p].root, v, kind[p].level) == p
    decreases 2 - kind[p].level
  {
    assert AnchorOk(mem, kind, p);
    if kind[p].level < 2 {
      NodeFinds(mem, kind, kind[p].up, v);
    }
  }

  // ---- Changing memory --------------------------------------------------------------------------

  /** The entry for v in the table page q of its path is the same in both memories. */
  ghost predicate SameEntry(mem: Memory, mem': Memory, kind: Kinds, q: nat, v: nat)
    requires MemOk(mem, kind) && q in kind && kind[q].Table?
  {
    q in mem' && |mem'[q]| == ENTRIES && mem'[q][Index(v, kind[q].level)] == mem[q][Index(v, kind[q].level)]
  }

  ghost predicate OnPath(kind: Kinds, q: nat, root: nat, v: nat) {
    q in kind && kind[q].Table? && kind[q].root == root && kind[q].level <= 2
      && kind[q].prefix == Prefix(v, kind[q].level)
  }

  lemma NodeSame(mem: Memory, mem': Memory, kind: Kinds, root: nat, v: nat, level: nat)
    requires Inv(mem, kind) && IsRoot(kind, root) && v < MAXVPN && level <= 2 && 0 !in mem'
    requires forall q :: OnPath(kind, q, root, v) && kind[q].level > level ==> SameEntry(mem, mem', kind, q, v)
    ensures Node(mem', root, v, level) == Node(mem, root, v, level)
    decreases 2 - level
  {
    if level < 2 {
      NodeSame(mem, mem', kind, root, v, level + 1);
      NodeKind(mem, kind, root, v, level + 1);
      var q := Node(mem, root, v, level + 1);
      assert q != 0 ==> OnPath(kind, q, root, v);
    }
  }

  /** If no entry on the path to v changes, v's translation does not change. */
  lemma LookupSame(mem: Memory, mem': Memory, kind: Kinds, root: nat, v: nat)
    requires Inv(mem, kind) && IsRoot(kind, root) && v < MAXVPN && 0 !in mem'
    requires forall q :: OnPath(kind, q, root, v) ==> SameEntry(mem, mem', kind, q, v)
    ensures Lookup(mem', root, v) == Lookup(mem, root, v)
  {
    NodeSame(mem, mem', kind, root, v, 0);
    NodeKind(mem, kind, root, v, 0);
    var q := Node(mem, root, v, 0);
    assert q != 0 ==> OnPath(kind, q, root, v);
  }

  /** Two memories represent the same maps. */
  ghost predicate SameMaps(mem: Memory, mem': Memory, kind: Kinds) {
    forall root, v :: IsRoot(kind, root) && 0 <= v < MAXVPN ==> Lookup(mem', root, v) == Lookup(mem, root, v)
  }

  /** mem' maps v in root to pte (0: not at all) and agrees with mem everywhere else. */
  ghost predicate MapsSet(mem: Memory, mem': Memory, kind: Kinds, root: nat, v: nat, pte: nat) {
    forall r, w :: IsRoot(kind, r) && 0 <= w < MAXVPN ==>
      Lookup(mem', r, w) == if r == root && w == v then pte else Lookup(mem, r, w)
  }

  function SetEntry(mem: Memory, p: nat, i: nat, pte: nat): Memory
    requires p in mem && i < |mem[p]|
  {
    var page: seq<nat> := mem[p][i := pte];
    mem[p := page]
  }

  /** The page behind an entry belongs to the process, mapped at v by this entry. */
  ghost predicate OwnsUser(kind: Kinds, p: nat, v: nat, pte: nat)
    requires p in kind && kind[p].Table?
  {
    IsValid(pte) && Ppn(pte) in kind && kind[Ppn(pte)] == User(kind[p].root, v, p)
  }

  /** What a leaf entry may be replaced by, and what becomes of the user page behind it: a fresh page
      is mapped, the owned page is unmapped, or no ownership changes. */
  ghost predicate LeafChange(mem: Memory, kind: Kinds, kind': Kinds, p: nat, v: nat, pte: nat)
    requires MemOk(mem, kind) && p in kind && kind[p].Table?
  {
    var was := mem[p][v % 512];
    && (IsValid(pte) || pte == 0)
    && if kind' == kind then OwnsUser(kind, p, v, was) ==> IsValid(pte) && Ppn(pte) == Ppn(was)
       else if pte == 0 then OwnsUser(kind, p, v, was) && kind' == kind[Ppn(was) := Other]
       else !IsValid(was) && Ppn(pte) in kind && kind[Ppn(pte)] == Other
            && kind' == kind[Ppn(pte) := User(kind[p].root, v, p)]
  }

  /** Writing a leaf entry changes the translation of that one virtual page and nothing else. */
  lemma SetLeaf(mem: Memory, kind: Kinds, kind': Kinds, p: nat, v: nat, pte: nat)
    requires Inv(mem, kind) && p in kind && kind[p].Table? && kind[p].level == 0 && kind[p].prefix == v / 512
             && v < MAXVPN
    requires (IsValid(pte) ==> Flags(pte) != 1) && LeafChange(mem, kind, kind', p, v, pte)
    ensures Inv(SetEntry(mem, p, v % 512, pte), kind')
    ensures MapsSet(mem, SetEntry(mem, p, v % 512, pte), kind, kind[p].root, v, pte)
  {
    var mem' := SetEntry(mem, p, v % 512, pte);
    SetLeafInv(mem, kind, kind', p, v, pte);
    NodeFinds(mem, kind, p, v);
    forall r, w | IsRoot(kind, r) && 0 <= w < MAXVPN
      ensures Lookup(mem', r, w) == if r == kind[p].root && w == v then pte else Lookup(mem, r, w)
    {
      if r == kind[p].root && w == v {
        NodeSame(mem, mem', kind, r, w, 0);
      } else {
        LookupSame(mem, mem', kind, r, w);
      }
    }
  }

  lemma SetLeafInv(mem: Memory, kind: Kinds, kind': Kinds, p: nat, v: nat, pte: nat)
    requires Inv(mem, kind) && p in kind && kind[p].Table? && kind[p].level == 0 && kind[p].prefix == v / 512
             && v < MAXVPN
    requires (IsValid(pte) ==> Flags(pte) != 1) && LeafChange(mem, kind, kind', p, v, pte)
    ensures Inv(SetEntry(mem, p, v % 512, pte), kind')
  {
    var mem' := SetEntry(mem, p, v % 512, pte);
    forall q, i | q in kind' && kind'[q].Table? && 0 <= i < ENTRIES ensures EntryOk(mem', kind', q, i) {
      assert EntryOk(mem, kind, q, i);
    }
    forall q | q in kind' ensures AnchorOk(mem', kind', q) {
      assert AnchorOk(mem, kind, q);
    }
  }

  // ---- Table pages --------------------------------------------------------------------------------

  ghost predicate ZeroPage(page: seq<nat>) {
    |page| == ENTRIES && forall i :: 0 <= i < ENTRIES ==> page[i] == 0
  }

  /** walk hangs a zeroed page q into an invalid entry of table page p: no translation changes. */
  lemma LinkTable(mem: Memory, kind: Kinds, p: nat, i: nat, q: nat)
    requires Inv(mem, kind) && p in kind && kind[p].Table? && 0 < kind[p].level <= 2 && i < ENTRIES
    requires q in kind && kind[q] == Other && ZeroPage(mem[q]) && !IsValid(mem[p][i])
             && PrefixOk(kind[p].level - 1, kind[p].prefix * 512 + i)
    ensures var k := kind[p];
            var mem', kind' := SetEntry(mem, p, i, q * 1024 + 1),
              kind[q := Table(k.root, k.level - 1, k.prefix * 512 + i, p)];
            Inv(mem', kind') && SameMaps(mem, mem', kind)
  {
    var k := kind[p];
    var mem', kind' := SetEntry(mem, p, i, q * 1024 + 1), kind[q := Table(k.root, k.level - 1, k.prefix * 512 + i, p)];
    LinkTableInv(mem, kind, p, i, q);
    forall root, v | IsRoot(kind, root) && 0 <= v < MAXVPN ensures Lookup(mem', root, v) == Lookup(mem, root, v) {
      if OnPath(kind, p, root, v) && Index(v, k.level) == i {
        LinkLookup(mem, kind, p, i, q, root, v);
      } else {
        LookupSame(mem, mem', kind, root, v);
      }
    }
  }

  lemma LinkTableInv(mem: Memory, kind: Kinds, p: nat, i: nat, q: nat)
    requires Inv(mem, kind) && p in kind && kind[p].Table? && 0 < kind[p].level <= 2 && i < ENTRIES
    requires q in kind && kind[q] == Other && ZeroPage(mem[q]) && !IsValid(mem[p][i])
             && PrefixOk(kind[p].level - 1, kind[p].prefix * 512 + i)
    ensures var k := kind[p];
            Inv(SetEntry(mem, p, i, q * 1024 + 1), kind[q := Table(k.root, k.level - 1, k.prefix * 512 + i, p)])
  {
    var k := kind[p];
    var mem', kind' := SetEntry(mem, p, i, q * 1024 + 1), kind[q := Table(k.root, k.level - 1, k.prefix * 512 + i, p)];
    TablePte(q);
    forall r, j | r in kind' && kind'[r].Table? && 0 <= j < ENTRIES ensures EntryOk(mem', kind', r, j) {
      if r != q {
        assert EntryOk(mem, kind, r, j);
      }
    }
    forall r | r in kind' ensures AnchorOk(mem', kind', r) {
      if r == q {
        assert PointsTo(mem', kind', p, k.root, k.level, k.prefix * 512 + i, q);
      } else {
        assert AnchorOk(mem, kind, r);
        LinkKeepsAnchor(mem, kind, p, i, q, r);
      }
    }
  }

  lemma LinkKeepsAnchor(mem: Memory, kind: Kinds, p: nat, i: nat, q: nat, r: nat)
    requires MemOk(mem, kind) && p in kind && kind[p].Table? && kind[p].level > 0 && i < ENTRIES && q in kind
             && kind[q] == Other
    requires !IsValid(mem[p][i]) && r in kind && r != q && AnchorOk(mem, kind, r)
    ensures var k := kind[p];
            var mem', kind' := SetEntry(mem, p, i, q * 1024 + 1),
              kind[q := Table(k.root, k.level - 1, k.prefix * 512 + i, p)];
            MemOk(mem', kind') && AnchorOk(mem', kind', r)
  {
  }

  /** On the path through the new entry, v was unmapped and still is. */
  lemma LinkLookup(mem: Memory, kind: Kinds, p: nat, i: nat, q: nat, root: nat, v: nat)
    requires Inv(mem, kind) && p in kind && kind[p].Table? && 0 < kind[p].level <= 2 && i < ENTRIES
    requires q in kind && kind[q] == Other && ZeroPage(mem[q]) && !IsValid(mem[p][i])
             && PrefixOk(kind[p].level - 1, kind[p].prefix * 512 + i)
    requires OnPath(kind, p, root, v) && Index(v, kind[p].level) == i && v < MAXVPN
    ensures Lookup(mem, root, v) == 0 && Lookup(SetEntry(mem, p, i, q * 1024 + 1), root, v) == 0
  {
    var mem' := SetEntry(mem, p, i, q * 1024 + 1);
    var level := kind[p].level;
    NodeFinds(mem, kind, p, v);
    NodeSame(mem, mem', kind, root, v, level);
    assert Node(mem, root, v, level - 1) == Below(mem, p, i) == 0;
    DeadEnd(mem, root, v, level - 1);
    TablePte(q);
    assert Node(mem', root, v, level - 1) == Below(mem', p, i) == q;
    DeadEnd(mem', root, v, level - 1);
  }

  /** PA2PTE(q) | PTE_V. */
  lemma TablePte(q: nat)
    ensures IsValid(q * 1024 + 1) && Ppn(q * 1024 + 1) == q && Flags(q * 1024 + 1) == 1
  {
  }

  lemma DeadEnd(mem: Memory, root: nat, v: nat, level: nat)
    requires level <= 1 && 0 !in mem
    requires var q := Node(mem, root, v, level); q == 0 || (q in mem && ZeroPage(mem[q]))
    ensures Lookup(mem, root, v) == 0
  {
    if level == 1 {
      assert Node(mem, root, v, 0) == 0;
    }
  }

  /** Pages that are not table pages may be rewritten, and change hands between free and allocated. */
  lemma WritePage(mem: Memory, kind: Kinds, loose: bool, p: nat, page: seq<nat>, k: Kind)
    requires InvWhile(mem, kind, loose) && p in kind && !kind[p].Table? && |page| == ENTRIES
    requires k == kind[p] || ((kind[p].Free? || kind[p].Other?) && (k.Free? || k.Other?))
    ensures InvWhile(mem[p := page], kind[p := k], loose)
    ensures !loose ==> SameMaps(mem, mem[p := page], kind)
  {
    var mem', kind' := mem[p := page], kind[p := k];
    forall q, i | q in kind' && kind'[q].Table? && 0 <= i < ENTRIES ensures EntryOk(mem', kind', q, i) {
      assert EntryOk(mem, kind, q, i);
    }
    forall q | q in kind' ensures (loose && Detached(kind'[q])) || AnchorOk(mem', kind', q) {
      assert (loose && Detached(kind[q])) || AnchorOk(mem, kind, q);
    }
    if !loose {
      forall root, v | IsRoot(kind, root) && 0 <= v < MAXVPN ensures Lookup(mem', root, v) == Lookup(mem, root, v) {
        LookupSame(mem, mem', kind, root, v);
      }
    }
  }
}
