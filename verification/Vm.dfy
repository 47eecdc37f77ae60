/** The page allocator (kernel/kalloc.c) and the address-space operations of kernel/vm.c, proved
against the flat maps of PageTable and against a ledger that says of every page of physical
memory what it is used for. */
module Vm {
  import opened PageTable
  import opened FreeWalk


  function Zeros(): (page: seq<nat>)
    ensures ZeroPage(page)
  {
    seq(ENTRIES, i => 0)
  }

  /** The free list threads through the free pages: the first word of each is the next one's address. */
  ghost predicate Chain(mem: Memory, head: nat, free: seq<nat>)
    decreases |free|
  {
    if free == [] then head == 0
    else head == free[0] && head in mem && |mem[head]| == ENTRIES && mem[head][0] % PGSIZE == 0
         && Chain(mem, mem[head][0] / PGSIZE, free[1..])
  }

  ghost function Elements(s: seq<nat>): set<nat> {
    set p | p in s
  }

  ghost function FreePages(kind: Kinds): set<nat> {
    set p | p in kind && kind[p] == Free
  }

  ghost predicate Distinct(s: seq<nat>) {
    s == [] || (s[0] !in s[1..] && Distinct(s[1..]))
  }

  /** `free` lists the pages whose kind is Free, each once. */
  ghost predicate Lists(kind: Kinds, free: seq<nat>) {
    Distinct(free) && Elements(free) == FreePages(kind)
  }

  lemma Listed(kind: Kinds, free: seq<nat>, p: nat)
    requires Lists(kind, free)
    ensures p in free <==> p in kind && kind[p] == Free
  {
    assert p in Elements(free) <==> p in FreePages(kind);
  }

  /** A page is put in front of the list. */
  lemma ListsPut(kind: Kinds, free: seq<nat>, p: nat)
    requires Lists(kind, free) && p in kind && kind[p] != Free
    ensures Lists(kind[p := Free], [p] + free)
  {
    Listed(kind, free, p);
    assert ([p] + free)[1..] == free;
    assert Elements([p] + free) == Elements(free) + {p};
    assert FreePages(kind[p := Free]) == FreePages(kind) + {p};
  }

  /** The page in front of the list is taken. */
  lemma ListsTake(kind: Kinds, free: seq<nat>, k: Kind)
    requires Lists(kind, free) && free != [] && k != Free
    ensures free[0] in kind && kind[free[0]] == Free && free[0] !in free[1..]
    ensures Lists(kind[free[0] := k], free[1..])
  {
    Listed(kind, free, free[0]);
    assert free == [free[0]] + free[1..];
    assert Elements(free[1..]) == Elements(free) - {free[0]};
    assert FreePages(kind[free[0] := k]) == FreePages(kind) - {free[0]};
  }

  /** The pages lo .. hi - 1 are free now, the others as before. */
  ghost predicate RangeFree(kind0: Kinds, kind: Kinds, lo: nat, hi: nat) {
    kind.Keys == kind0.Keys && forall p :: p in kind ==> kind[p] == if lo <= p < hi then Free else kind0[p]
  }

  lemma RangeFreeNext(kind0: Kinds, kind: Kinds, lo: nat, p: nat)
    requires RangeFree(kind0, kind, lo, p) && lo <= p && p in kind0
    ensures kind[p] == kind0[p] && RangeFree(kind0, kind[p := Free], lo, p + 1)
  {
  }

  lemma WholePage(p: nat, end: nat)
    ensures (p + 1) * PGSIZE <= end <==> p < end / PGSIZE
  {
  }

  /** Writing to other pages leaves the chain alone. */
  lemma ChainFrame(mem: Memory, mem': Memory, head: nat, free: seq<nat>)
    requires Chain(mem, head, free)
    requires forall p :: p in free && p in mem ==> p in mem' && mem'[p] == mem[p]
    ensures Chain(mem', head, free)
    decreases |free|
  {
    if free != [] {
      ChainFrame(mem, mem', mem[head][0] / PGSIZE, free[1..]);
    }
  }

  /** So does writing to a page that is not free. */
  lemma ChainKept(mem: Memory, mem': Memory, kind: Kinds, head: nat, free: seq<nat>, p: nat)
    requires Chain(mem, head, free) && Lists(kind, free) && !(p in kind && kind[p] == Free)
    requires mem'.Keys == mem.Keys && forall q :: q in mem && q != p ==> mem'[q] == mem[q]
    ensures Chain(mem', head, free)
  {
    Listed(kind, free, p);
    ChainFrame(mem, mem', head, free);
  }

  /** Table pages for `root` have been taken from the free list; nothing else has changed hands. */
  ghost predicate Grown(kind: Kinds, kind': Kinds, root: nat) {
    && kind'.Keys == kind.Keys
    && forall p :: p in kind ==>
         kind'[p] == kind[p] || (kind[p] == Free && kind'[p].Table? && kind'[p].root == root && kind'[p].level < 2)
  }

  /** p is the table page of `level` on the way to v. */
  ghost predicate At(kind: Kinds, p: nat, root: nat, v: nat, level: nat) {
    p in kind && kind[p].Table? && kind[p].root == root && kind[p].level == level && kind[p].prefix == Prefix(v, level)
  }

  /** Going down one level of the walk to v, below MAXVA. */
  lemma NextPrefix(v: nat, level: nat)
    requires v < MAXVPN && 0 < level <= 2
    ensures Prefix(v, level) * 512 + Index(v, level) == Prefix(v, level - 1)
    ensures PrefixOk(level - 1, Prefix(v, level - 1))
  {
  }

  lemma FreshLeaf(mem: Memory, kind: Kinds, kind': Kinds, p: nat, v: nat, ppn: nat, flags: nat)
    requires MemOk(mem, kind) && p in kind && kind[p].Table? && !IsValid(mem[p][v % 512])
    requires IsValid(flags) && flags != 1 && flags < 1024
    requires kind' == kind || (ppn in kind && kind[ppn] == Other && kind' == kind[ppn := User(kind[p].root, v, p)])
    ensures LeafChange(mem, kind, kind', p, v, ppn * 1024 + flags) && Flags(ppn * 1024 + flags) != 1
  {
    LeafPte(ppn, flags);
  }

  lemma GrownRoots(kind: Kinds, kind': Kinds, root: nat)
    requires Grown(kind, kind', root)
    ensures forall r :: IsRoot(kind, r) ==> IsRoot(kind', r)
  {
  }

  /** perm | PTE_V. */
  function WithValid(perm: nat): nat {
    perm - perm % 2 + 1
  }

  /** mem' maps n pages from v0 on to the pages from ppn on, and agrees with mem everywhere else. */
  ghost predicate RangeSet(mem: Memory, mem': Memory, kind: Kinds, root: nat, v0: nat, n: nat, ppn: nat, flags: nat) {
    forall r, w :: IsRoot(kind, r) && 0 <= w < MAXVPN ==>
      Lookup(mem', r, w) == if r == root && v0 <= w < v0 + n then (ppn + (w - v0)) * 1024 + flags else Lookup(mem, r, w)
  }

  lemma RangeGrows(mem: Memory, mem1: Memory, mem2: Memory, kind: Kinds, kind1: Kinds, root: nat, v0: nat, n: nat,
                   ppn: nat, flags: nat)
    requires RangeSet(mem, mem1, kind, root, v0, n, ppn, flags)
    requires MapsSet(mem1, mem2, kind1, root, v0 + n, (ppn + n) * 1024 + flags)
    requires forall r :: IsRoot(kind, r) ==> IsRoot(kind1, r)
    ensures RangeSet(mem, mem2, kind, root, v0, n + 1, ppn, flags)
  {
  }

  /** The first `done` pages are mapped, and nothing else has changed but for new table pages. */
  ghost predicate Reached(mem0: Memory, kind0: Kinds, mem: Memory, kind: Kinds, root: nat, first: nat, done: nat,
                          ppn: nat, flags: nat) {
    && OldPages(mem0, mem, kind0) && IsRoot(kind0, root)
    && (forall r :: IsRoot(kind0, r) ==> IsRoot(kind, r))
    && RangeSet(mem0, mem, kind0, root, first, done, ppn, flags)
  }

  lemma ReachedMore(mem0: Memory, mem1: Memory, mem: Memory, kind0: Kinds, kind1: Kinds, kind: Kinds, root: nat,
                    first: nat, done: nat, ppn: nat, flags: nat, own: bool)
    requires Reached(mem0, kind0, mem1, kind1, root, first, done, ppn, flags) && Grown(kind0, kind1, root)
    requires OldPages(mem1, mem, kind1) && MapsSet(mem1, mem, kind1, root, first + done, (ppn + done) * 1024 + flags)
    requires if own then done == 0 && IsUser(kind, ppn, root, first) && ppn in kind1 && kind1[ppn] == Other
                         && Grown(kind1, kind[ppn := Other], root)
             else Grown(kind1, kind, root)
    ensures Reached(mem0, kind0, mem, kind, root, first, done + 1, ppn, flags)
    ensures Grown(kind0, if own then kind[ppn := Other] else kind, root)
  {
    OldTrans(mem0, mem1, mem, kind0, kind1, root);
    RangeGrows(mem0, mem1, mem, kind0, kind1, root, first, done, ppn, flags);
    GrownTrans(kind0, kind1, if own then kind[ppn := Other] else kind, root);
  }

  lemma ReachedSame(mem0: Memory, mem1: Memory, mem: Memory, kind0: Kinds, kind1: Kinds, kind: Kinds, root: nat,
                    first: nat, done: nat, ppn: nat, flags: nat)
    requires Reached(mem0, kind0, mem1, kind1, root, first, done, ppn, flags) && Grown(kind0, kind1, root)
    requires OldPages(mem1, mem, kind1) && SameMaps(mem1, mem, kind1) && Grown(kind1, kind, root)
    ensures Reached(mem0, kind0, mem, kind, root, first, done, ppn, flags) && Grown(kind0, kind, root)
  {
    OldTrans(mem0, mem1, mem, kind0, kind1, root);
    RangeStays(mem0, mem1, mem, kind0, kind1, root, first, done, ppn, flags);
    GrownTrans(kind0, kind1, kind, root);
  }

  lemma RangeStays(mem: Memory, mem1: Memory, mem2: Memory, kind: Kinds, kind1: Kinds, root: nat, v0: nat, n: nat,
                   ppn: nat, flags: nat)
    requires RangeSet(mem, mem1, kind, root, v0, n, ppn, flags) && SameMaps(mem1, mem2, kind1)
    requires forall r :: IsRoot(kind, r) ==> IsRoot(kind1, r)
    ensures RangeSet(mem, mem2, kind, root, v0, n, ppn, flags)
  {
  }

  lemma GrownTrans(kind: Kinds, kind1: Kinds, kind2: Kinds, root: nat)
    requires Grown(kind, kind1, root) && Grown(kind1, kind2, root)
    ensures Grown(kind, kind2, root) && forall r :: IsRoot(kind, r) ==> IsRoot(kind2, r)
  {
  }

  lemma OldTrans(mem: Memory, mem1: Memory, mem2: Memory, kind: Kinds, kind1: Kinds, root: nat)
    requires OldPages(mem, mem1, kind) && OldPages(mem1, mem2, kind1) && Grown(kind, kind1, root)
    ensures OldPages(mem, mem2, kind)
  {
  }

  lemma PageAddress(v: nat)
    ensures v * PGSIZE / PGSIZE == v && (v * PGSIZE + PGSIZE - 1) / PGSIZE == v && v * PGSIZE % PGSIZE == 0
  {
  }

  lemma ValidFlags(flags: nat)
    requires IsValid(flags)
    ensures flags > 0 && WithValid(flags - 1) == flags
  {
  }

  /** Clearing an entry: the page behind it leaves the process exactly if the ledger gives it to v. */
  lemma ClearLeaf(mem: Memory, kind: Kinds, kind': Kinds, p: nat, root: nat, v: nat)
    requires Inv(mem, kind) && p in kind && kind[p].Table? && kind[p].root == root && kind[p].level == 0
    requires kind[p].prefix == v / 512 && v < MAXVPN && IsValid(mem[p][v % 512])
    requires var u := Ppn(mem[p][v % 512]); kind' == if IsUser(kind, u, root, v) then kind[u := Other] else kind
    ensures LeafChange(mem, kind, kind', p, v, 0)
  {
    var u := Ppn(mem[p][v % 512]);
    if IsUser(kind, u, root, v) {
      assert AnchorOk(mem, kind, u);
      NodeFinds(mem, kind, kind[u].up, v);
      NodeFinds(mem, kind, p, v);
    }
  }

  lemma MapsSetThen(mem: Memory, mem1: Memory, mem2: Memory, kind: Kinds, kind1: Kinds, root: nat, v: nat, pte: nat)
    requires MapsSet(mem, mem1, kind, root, v, pte) && SameMaps(mem1, mem2, kind1)
    requires forall r :: IsRoot(kind, r) ==> IsRoot(kind1, r)
    ensures MapsSet(mem, mem2, kind, root, v, pte)
  {
  }

  /** Pages that keep their owner keep their contents, unless they are free or table pages. */
  ghost predicate Kept(mem: Memory, mem': Memory, kind: Kinds, kind': Kinds) {
    && mem'.Keys == mem.Keys
    && forall p :: p in kind && p in mem && p in kind' && !kind[p].Free? && !kind[p].Table? && kind'[p] == kind[p] ==>
                     mem'[p] == mem[p]
  }

  lemma KeptAfterFree(mem: Memory, mem1: Memory, mem2: Memory, kind: Kinds, u: nat)
    requires u in kind && kind[u].User? && OldPages(mem, mem1, kind)
    requires mem2.Keys == mem1.Keys && forall q :: q in mem2 && q != u ==> mem2[q] == mem1[q]
    ensures Kept(mem, mem2, kind, kind[u := Free])
    ensures kind[u := Other][u := Free] == kind[u := Free]
  {
  }

  /** PGROUNDUP(sz) / PGSIZE. */
  function Pages(sz: nat): nat {
    (sz + PGSIZE - 1) / PGSIZE
  }

  /** What a new virtual page is to be: PTE flags and contents. */
  datatype Want = Want(flags: nat, page: seq<nat>)

  /** v is mapped as wanted, to a page that belongs to the process. */
  ghost predicate HasPage(mem: Memory, kind: Kinds, root: nat, v: nat, want: Want) {
    var pte := Lookup(mem, root, v);
    && pte != 0 && Flags(pte) == want.flags && IsUser(kind, Ppn(pte), root, v)
    && Ppn(pte) in mem && mem[Ppn(pte)] == want.page
  }

  ghost function WantZeros(n: nat, flags: nat): seq<Want> {
    seq(n, w => Want(flags, Zeros()))
  }

  /** What uvmcopy wants: the flags and contents of the parent's first n pages. */
  ghost function Copies(mem: Memory, parent: nat, n: nat): seq<Want> {
    seq(n, w requires w >= 0 =>
             var pte := Lookup(mem, parent, w);
             Want(Flags(pte), if Ppn(pte) in mem then mem[Ppn(pte)] else []))
  }

  /** While the child grows, the parent's page i stays what it was. */
  lemma ParentPage(mem0: Memory, kind0: Kinds, mem: Memory, kind: Kinds, parent: nat, child: nat, i: nat, n: nat,
                   wants: seq<Want>)
    requires Inv(mem0, kind0) && Inv(mem, kind) && IsRoot(kind0, parent) && parent != child && i < n <= MAXVPN
    requires Grew(mem0, kind0, mem, kind, child, 0, i, wants) && wants == Copies(mem0, parent, n)
    requires AllMapped(mem0, kind0, parent, 0, n, true) && IsRoot(kind, parent)
    ensures var pte := Lookup(mem, parent, i);
            && pte == Lookup(mem0, parent, i) && Node(mem, parent, i, 0) in mem
            && pte == mem[Node(mem, parent, i, 0)][i % 512]
            && IsValid(Flags(pte)) && 1 < Flags(pte) < 1024 && Ppn(pte) in mem && |mem[Ppn(pte)]| == ENTRIES
            && wants[i] == Want(Flags(pte), mem[Ppn(pte)])
  {
    var pte := Lookup(mem, parent, i);
    assert pte == Lookup(mem0, parent, i) && pte != 0;
    NodeKind(mem, kind, parent, i, 0);
    assert EntryOk(mem, kind, Node(mem, parent, i, 0), i % 512);
  }

  /** Free pages have become table pages of `root` or its pages in lo .. hi; nothing else has changed hands. */
  ghost predicate GrownUsers(kind: Kinds, kind': Kinds, root: nat, lo: nat, hi: nat) {
    && kind'.Keys == kind.Keys
    && forall p :: p in kind ==>
         kind'[p] == kind[p]
         || (kind[p] == Free && kind'[p].Table? && kind'[p].root == root && kind'[p].level < 2)
         || (kind[p] == Free && kind'[p].User? && kind'[p].root == root && lo <= kind'[p].vpn < hi)
  }

  /** What a page that was taken, zeroed and mapped (or not) means for maps and ledger. */
  lemma PageMapped(mem0: Memory, mem1: Memory, mem2: Memory, kind0: Kinds, kind1: Kinds, kind2: Kinds, root: nat,
                   v: nat, pg: nat, flags: nat, ok: bool)
    requires pg in kind0 && kind0[pg] == Free && kind1 == kind0[pg := Other] && IsRoot(kind0, root) && v < MAXVPN
    requires SameMaps(mem0, mem1, kind0) && OldPages(mem0, mem1, kind0) && OldPages(mem1, mem2, kind1)
    requires RangeSet(mem1, mem2, kind1, root, v, if ok then 1 else 0, pg, flags)
    requires if ok then IsUser(kind2, pg, root, v) && Grown(kind1, kind2[pg := Other], root)
             else Grown(kind1, kind2, root)
    ensures OldPages(mem0, mem2, kind0)
    ensures !ok ==> SameMaps(mem0, mem2, kind0) && kind2[pg] == Other && Grown(kind0, kind2[pg := Free], root)
    ensures ok ==> MapsSet(mem0, mem2, kind0, root, v, pg * 1024 + flags) && GrownUsers(kind0, kind2, root, v, v + 1)
    ensures forall r :: IsRoot(kind0, r) ==> IsRoot(kind2, r)
  {
    assert forall r :: IsRoot(kind0, r) ==> IsRoot(kind1, r);
    if ok {
      var k := kind2[pg := Other];
      assert k.Keys == kind2.Keys + {pg} == kind2.Keys == kind0.Keys;
      assert forall p :: p in kind0 && p != pg ==> k[p] == kind2[p] && kind1[p] == kind0[p];
    }
  }

  /** The k wanted pages have been added from v0 on; every other translation and page is as before. */
  ghost predicate Grew(mem0: Memory, kind0: Kinds, mem: Memory, kind: Kinds, root: nat, v0: nat, k: nat,
                       wants: seq<Want>) {
    && OldPages(mem0, mem, kind0) && GrownUsers(kind0, kind, root, v0, v0 + k)
    && (forall r, w :: IsRoot(kind0, r) && 0 <= w < MAXVPN && !(r == root && v0 <= w < v0 + k) ==>
                         Lookup(mem, r, w) == Lookup(mem0, r, w))
    && v0 + k <= |wants|
    && (forall w :: v0 <= w < v0 + k ==> HasPage(mem, kind, root, w, wants[w]))
  }

  lemma GrewRoots(mem0: Memory, kind0: Kinds, mem: Memory, kind: Kinds, root: nat, v0: nat, k: nat, wants: seq<Want>)
    requires Grew(mem0, kind0, mem, kind, root, v0, k, wants)
    ensures forall r :: IsRoot(kind0, r) ==> IsRoot(kind, r)
    ensures AllMapped(mem, kind, root, v0, k, true)
  {
    forall w | v0 <= w < v0 + k ensures Lookup(mem, root, w) != 0 && IsUser(kind, Ppn(Lookup(mem, root, w)), root, w) {
      assert HasPage(mem, kind, root, w, wants[w]);
    }
  }

  lemma GrewMore(mem0: Memory, kind0: Kinds, mem1: Memory, kind1: Kinds, mem2: Memory, kind2: Kinds, root: nat, v0: nat,
                 k: nat, wants: seq<Want>)
    requires Grew(mem0, kind0, mem1, kind1, root, v0, k, wants) && IsRoot(kind0, root) && v0 + k < MAXVPN
    requires forall r :: IsRoot(kind0, r) ==> IsRoot(kind1, r)
    requires OldPages(mem1, mem2, kind1) && GrownUsers(kind1, kind2, root, v0 + k, v0 + k + 1) && v0 + k < |wants|
    requires MapsSet(mem1, mem2, kind1, root, v0 + k, Lookup(mem2, root, v0 + k))
             && HasPage(mem2, kind2, root, v0 + k, wants[v0 + k])
    ensures Grew(mem0, kind0, mem2, kind2, root, v0, k + 1, wants)
  {
    forall w | v0 <= w < v0 + k + 1 ensures HasPage(mem2, kind2, root, w, wants[w]) {
      if w < v0 + k {
        assert HasPage(mem1, kind1, root, w, wants[w]);
      }
    }
  }

  lemma GrewTables(mem0: Memory, kind0: Kinds, mem1: Memory, kind1: Kinds, mem2: Memory, kind2: Kinds, root: nat,
                   v0: nat, k: nat, wants: seq<Want>)
    requires Grew(mem0, kind0, mem1, kind1, root, v0, k, wants) && IsRoot(kind0, root) && v0 + k <= MAXVPN
    requires forall r :: IsRoot(kind0, r) ==> IsRoot(kind1, r)
    requires OldPages(mem1, mem2, kind1) && Grown(kind1, kind2, root) && SameMaps(mem1, mem2, kind1)
    ensures Grew(mem0, kind0, mem2, kind2, root, v0, k, wants)
  {
    forall w | v0 <= w < v0 + k ensures HasPage(mem2, kind2, root, w, wants[w]) {
      assert HasPage(mem1, kind1, root, w, wants[w]);
    }
  }

  ghost predicate Unused(mem: Memory, root: nat, v0: nat, n: nat) {
    forall w :: v0 <= w < v0 + n ==> Lookup(mem, root, w) == 0
  }

  /** A failed operation: no translation has changed, and no page has changed hands except free pages
      that now serve as table pages of `root`. */
  ghost predicate Undone(mem0: Memory, kind0: Kinds, mem: Memory, kind: Kinds, root: nat) {
    SameMaps(mem0, mem, kind0) && Grown(kind0, kind, root) && Kept(mem0, mem, kind0, kind)
  }

  /** Freeing exactly the pages that were added undoes the growth, but for table pages. */
  lemma ShrunkBack(mem0: Memory, kind0: Kinds, mem1: Memory, kind1: Kinds, mem2: Memory, kind2: Kinds, root: nat,
                   v0: nat, k: nat, wants: seq<Want>)
    requires Inv(mem0, kind0) && Unused(mem0, root, v0, k)
    requires Grew(mem0, kind0, mem1, kind1, root, v0, k, wants) && IsRoot(kind0, root) && v0 + k <= MAXVPN
    requires forall r :: IsRoot(kind0, r) ==> IsRoot(kind1, r)
    requires RangeCleared(mem1, mem2, kind1, root, v0, k) && Kept(mem1, mem2, kind1, kind2)
             && Unmapped(kind1, kind2, root, v0, k)
    ensures Undone(mem0, kind0, mem2, kind2, root)
  {
    forall p | p in kind0 && kind0[p].User? && kind0[p].root == root ensures !(v0 <= kind0[p].vpn < v0 + k) {
      if v0 <= kind0[p].vpn < v0 + k {
        UserUnique(mem0, kind0, p, root, kind0[p].vpn);
      }
    }
  }

  /** Every page in the range is mapped, to pages of the process (users) or to none of them. */
  ghost predicate AllMapped(mem: Memory, kind: Kinds, root: nat, v0: nat, n: nat, users: bool) {
    forall w :: v0 <= w < v0 + n ==>
      Lookup(mem, root, w) != 0 && (users <==> IsUser(kind, Ppn(Lookup(mem, root, w)), root, w))
  }

  ghost predicate RangeCleared(mem: Memory, mem': Memory, kind: Kinds, root: nat, v0: nat, n: nat) {
    forall r, w :: IsRoot(kind, r) && 0 <= w < MAXVPN ==>
      Lookup(mem', r, w) == if r == root && v0 <= w < v0 + n then 0 else Lookup(mem, r, w)
  }

  lemma ClearGrows(mem: Memory, mem1: Memory, mem2: Memory, kind: Kinds, kind1: Kinds, root: nat, v0: nat, n: nat)
    requires RangeCleared(mem, mem1, kind, root, v0, n) && MapsSet(mem1, mem2, kind1, root, v0 + n, 0)
    requires forall r :: IsRoot(kind, r) ==> IsRoot(kind1, r)
    ensures RangeCleared(mem, mem2, kind, root, v0, n + 1)
  {
  }

  /** Exactly the process's pages in v0 .. v0 + n have become free. */
  ghost predicate Unmapped(kind: Kinds, kind': Kinds, root: nat, v0: nat, n: nat) {
    && kind'.Keys == kind.Keys
    && forall p :: p in kind ==>
         kind'[p] == if kind[p].User? && kind[p].root == root && v0 <= kind[p].vpn < v0 + n then Free else kind[p]
  }

  /** A process has at most one page at v, and the walk finds it. */
  lemma UserUnique(mem: Memory, kind: Kinds, p: nat, root: nat, v: nat)
    requires Inv(mem, kind) && IsUser(kind, p, root, v) && v < MAXVPN
    ensures Lookup(mem, root, v) != 0 && Ppn(Lookup(mem, root, v)) == p
  {
    assert AnchorOk(mem, kind, p);
    NodeFinds(mem, kind, kind[p].up, v);
    assert Lookup(mem, root, v) == mem[kind[p].up][v % 512];
  }

  lemma UnmappedGrows(mem: Memory, kind: Kinds, kind1: Kinds, root: nat, v0: nat, n: nat, u: nat)
    requires Unmapped(kind, kind1, root, v0, n) && Inv(mem, kind1) && v0 + n < MAXVPN
    requires IsUser(kind1, u, root, v0 + n) && u == Ppn(Lookup(mem, root, v0 + n))
    ensures Unmapped(kind, kind1[u := Free], root, v0, n + 1)
  {
    var v := v0 + n;
    forall p | p in kind && p != u && kind[p].User? && kind[p].root == root ensures kind[p].vpn != v {
      if IsUser(kind, p, root, v) {
        UserUnique(mem, kind1, p, root, v);
      }
    }
  }

  /** Pages that keep their owner keep their contents. */
  ghost predicate Untouched(mem: Memory, mem': Memory, kind: Kinds, kind': Kinds) {
    && mem'.Keys == mem.Keys
    && forall q :: q in mem && q in kind && q in kind' && kind'[q] == kind[q] ==> mem'[q] == mem[q]
  }

  ghost predicate EntriesGone(mem: Memory, p: nat, i: nat) {
    p in mem && |mem[p]| == ENTRIES && i <= ENTRIES && forall j :: 0 <= j < i ==> !IsValid(mem[p][j])
  }

  ghost predicate UntouchedBut(mem: Memory, mem': Memory, kind: Kinds, kind': Kinds, p: nat) {
    && mem'.Keys == mem.Keys
    && forall q :: q in mem && q in kind && q in kind' && q != p && kind'[q] == kind[q] ==> mem'[q] == mem[q]
  }

  /** Where freewalk stands: the subtrees of the entries of p before i are free and those entries are
      cleared; nothing else has changed since (mem0, kind0). */
  ghost predicate FreeState(mem0: Memory, kind0: Kinds, mem: Memory, kind: Kinds, p: nat, root: nat, level: nat,
                            prefix: nat, i: nat) {
    && MemOk(mem, kind) && Cut(kind, p, root, level, prefix) && Bare(mem, kind, root)
    && FreedBefore(kind0, kind, root, level, prefix, i)
    && EntriesGone(mem, p, i) && UntouchedBut(mem0, mem, kind0, kind, p)
  }

  lemma FreeStateNext(mem0: Memory, mem1: Memory, mem2: Memory, mem: Memory, kind0: Kinds, kind1: Kinds, kind2: Kinds,
                      kind: Kinds, p: nat, root: nat, level: nat, prefix: nat, i: nat, c: nat)
    requires FreeState(mem0, kind0, mem1, kind1, p, root, level, prefix, i) && 0 < level && i < ENTRIES
    requires c in kind1 && c != p && kind1[c] == Table(root, level - 1, prefix * 512 + i, p)
    requires kind2 == kind1[c := Detach(kind1[c])] && mem2 == SetEntry(mem1, p, i, 0)
    requires MemOk(mem2, kind2) && Bare(mem2, kind2, root) && MemOk(mem, kind)
    requires Freed(kind2, kind, root, level - 1, prefix * 512 + i) && Untouched(mem2, mem, kind2, kind)
    ensures FreeState(mem0, kind0, mem, kind, p, root, level, prefix, i + 1)
  {
    FreedStep(kind0, kind1, kind, p, root, level, prefix, i, c);
    FreedBare(mem1, mem2, mem, kind1, kind2, kind, p, root, level, prefix, i, c);
    FreedRest(mem0, mem1, mem2, mem, kind0, kind1, kind2, kind, p, root, level, prefix, i, c);
  }

  /** Freeing the subtree of entry i brings the ledger from "before i" to "before i + 1". */
  lemma FreedStep(kind0: Kinds, kind1: Kinds, kind: Kinds, p: nat, root: nat, level: nat, prefix: nat, i: nat, c: nat)
    requires 0 < level && i < ENTRIES && c in kind1 && c != p
    requires FreedBefore(kind0, kind1, root, level, prefix, i) && Cut(kind1, p, root, level, prefix)
    requires kind1[c] == Table(root, level - 1, prefix * 512 + i, p)
    requires Freed(kind1[c := Detach(kind1[c])], kind, root, level - 1, prefix * 512 + i)
    ensures FreedBefore(kind0, kind, root, level, prefix, i + 1)
    ensures Cut(kind, p, root, level, prefix)
  {
    forall q | q in kind0
      ensures q in kind && kind[q] == if UnderBefore(kind0[q], root, level, prefix, i + 1) then Free else kind0[q]
    {
      UnderSplit(kind0[q], root, level, prefix, i);
    }
  }

  lemma FreedSkip(mem: Memory, kind0: Kinds, kind: Kinds, p: nat, root: nat, level: nat, prefix: nat, i: nat)
    requires InvWhile(mem, kind, true) && Cut(kind, p, root, level, prefix) && i < ENTRIES && !IsValid(mem[p][i])
    requires FreedBefore(kind0, kind, root, level, prefix, i)
    ensures FreedBefore(kind0, kind, root, level, prefix, i + 1)
  {
    forall q | q in kind0
      ensures q in kind && kind[q] == if UnderBefore(kind0[q], root, level, prefix, i + 1) then Free else kind0[q]
    {
      if level > 0 {
        NothingBelow(mem, kind, p, root, level, prefix, i, q);
      }
    }
  }

  lemma FreedBare(mem1: Memory, mem2: Memory, mem: Memory, kind1: Kinds, kind2: Kinds, kind: Kinds, p: nat, root: nat,
                  level: nat, prefix: nat, i: nat, c: nat)
    requires MemOk(mem2, kind2) && MemOk(mem, kind) && Bare(mem2, kind2, root)
    requires 0 < level && Freed(kind2, kind, root, level - 1, prefix * 512 + i)
    requires Untouched(mem2, mem, kind2, kind)
    ensures Bare(mem, kind, root)
  {
    forall q, j {:trigger mem[q][j]} | q in kind && kind[q].Table? && kind[q].root == root && kind[q].level == 0
      && 0 <= j < ENTRIES
      ensures !IsValid(mem[q][j])
    {
      assert kind[q] == kind2[q];
      assert !IsValid(mem2[q][j]);
    }
  }

  lemma FreedRest(mem0: Memory, mem1: Memory, mem2: Memory, mem: Memory, kind0: Kinds, kind1: Kinds, kind2: Kinds,
                  kind: Kinds, p: nat, root: nat, level: nat, prefix: nat, i: nat, c: nat)
    requires p in mem1 && i < |mem1[p]| == ENTRIES && 0 < level && c in kind1 && c != p && kind1[c].Table?
    requires Cut(kind1, p, root, level, prefix) && kind2 == kind1[c := Detach(kind1[c])]
    requires kind1[c] == Table(root, level - 1, prefix * 512 + i, p)
    requires mem2 == SetEntry(mem1, p, i, 0) && Freed(kind2, kind, root, level - 1, prefix * 512 + i)
    requires Untouched(mem2, mem, kind2, kind)
    requires EntriesGone(mem1, p, i) && UntouchedBut(mem0, mem1, kind0, kind1, p)
    requires FreedBefore(kind0, kind1, root, level, prefix, i)
    ensures EntriesGone(mem, p, i + 1) && UntouchedBut(mem0, mem, kind0, kind, p)
  {
    assert kind[p] == kind2[p] && mem[p] == mem2[p];
    forall q | q in mem0 && q in kind0 && q in kind && q != p && kind[q] == kind0[q] ensures mem[q] == mem0[q] {
      assert kind1[q] == kind0[q] && q != c;
    }
  }

  lemma FreedNone(kind: Kinds, root: nat, level: nat, prefix: nat)
    ensures FreedBefore(kind, kind, root, level, prefix, 0)
  {
  }

  lemma FreeStateDone(mem0: Memory, kind0: Kinds, mem1: Memory, kind1: Kinds, mem: Memory, p: nat, root: nat,
                      level: nat, prefix: nat)
    requires Cut(kind0, p, root, level, prefix) && FreeState(mem0, kind0, mem1, kind1, p, root, level, prefix, ENTRIES)
    requires mem.Keys == mem1.Keys && forall q :: q in mem && q != p ==> mem[q] == mem1[q]
    ensures Freed(kind0, kind1[p := Other][p := Free], root, level, prefix)
    ensures Untouched(mem0, mem, kind0, kind1[p := Other][p := Free])
  {
    forall q | q in kind0 && q != p
      ensures Under(kind0[q], root, level, prefix) <==> UnderBefore(kind0[q], root, level, prefix, ENTRIES)
    {
      UnderAll(kind0[q], root, level, prefix);
    }
  }

  /** The subtree is the page itself and what is below it. */
  lemma UnderAll(k: Kind, root: nat, level: nat, prefix: nat)
    requires level <= 2 && !(k.Table? && k.root == root && k.level == level && k.prefix == prefix)
    ensures Under(k, root, level, prefix) <==> UnderBefore(k, root, level, prefix, ENTRIES)
  {
  }

  /** Ownership changes between allocated pages do not concern the free list. */
  lemma ListsKept(kind: Kinds, kind': Kinds, free: seq<nat>)
    requires Lists(kind, free) && kind'.Keys == kind.Keys
    requires forall p :: p in kind ==> (kind'[p] == Free <==> kind[p] == Free)
    ensures Lists(kind', free)
  {
    assert FreePages(kind') == FreePages(kind);
  }

  lemma MapsSetAfter(mem: Memory, mem1: Memory, mem2: Memory, kind: Kinds, kind1: Kinds, root: nat, v: nat, pte: nat)
    requires SameMaps(mem, mem1, kind) && MapsSet(mem1, mem2, kind1, root, v, pte)
    requires forall r :: IsRoot(kind, r) ==> IsRoot(kind1, r)
    ensures MapsSet(mem, mem2, kind, root, v, pte)
  {
  }

  /** p is the page of the process with page table `root`, mapped at v. */
  ghost predicate IsUser(kind: Kinds, p: nat, root: nat, v: nat) {
    p in kind && kind[p].User? && kind[p].root == root && kind[p].vpn == v
  }

  /** PA2PTE(pa) | flags. */
  lemma LeafPte(ppn: nat, flags: nat)
    requires flags < 1024
    ensures var pte := ppn * 1024 + flags; Ppn(pte) == ppn && Flags(pte) == flags && IsValid(pte) == IsValid(flags)
  {
  }

  lemma MapsTrans(mem: Memory, mem1: Memory, mem2: Memory, kind: Kinds, kind1: Kinds)
    requires SameMaps(mem, mem1, kind) && SameMaps(mem1, mem2, kind1)
    requires forall r :: IsRoot(kind, r) ==> IsRoot(kind1, r)
    ensures SameMaps(mem, mem2, kind)
  {
  }

  /** Pages that were neither free nor table pages keep their contents. */
  ghost predicate OldPages(mem: Memory, mem': Memory, kind: Kinds) {
    && mem'.Keys == mem.Keys
    && forall p :: p in kind && p in mem && !kind[p].Free? && !kind[p].Table? ==> mem'[p] == mem[p]
  }

  /** Below a missing table page there is nothing. */
  lemma DeadPath(mem: Memory, root: nat, v: nat, level: nat)
    requires level <= 1 && 0 !in mem && Node(mem, root, v, level) == 0
    ensures Node(mem, root, v, 0) == 0
  {
  }

  class Machine {
    var mem: Memory
    var freelist: nat
    ghost var kind: Kinds
    ghost var free: seq<nat>

    ghost predicate Valid()
      reads this
    {
      ValidWhile(false)
    }

    ghost predicate ValidWhile(loose: bool)
      reads this
    {
      InvWhile(mem, kind, loose) && Chain(mem, freelist, free) && Lists(kind, free)
    }

    /** kinit: all memory from `end` up to `phystop` is put on the free list, page by page; `ram` is what
        the memory holds when the machine starts. */
    constructor (end: nat, phystop: nat, ram: Memory)
      requires end > 0 && forall p :: p in ram <==> Pages(end) <= p < phystop / PGSIZE
      requires forall p :: p in ram ==> |ram[p]| == ENTRIES
      ensures Valid() && kind.Keys == ram.Keys && forall p :: p in kind ==> kind[p] == Free
    {
      mem, freelist := ram, 0;
      kind, free := map p | p in ram :: Other, [];
      new;
      Freerange(end, phystop);
    }

    /** freerange: the whole pages between the two addresses become free. */
    method Freerange(paStart: nat, paEnd: nat)
      requires Valid() && forall p :: Pages(paStart) <= p < paEnd / PGSIZE ==> p in kind && kind[p] == Other
      modifies this
      ensures Valid() && RangeFree(old(kind), kind, Pages(paStart), paEnd / PGSIZE)
    {
      ghost var kind0, lo, hi := kind, Pages(paStart), paEnd / PGSIZE;
      var p := Pages(paStart);
      WholePage(p, paEnd);
      while (p + 1) * PGSIZE <= paEnd
        invariant lo <= p && Valid() && RangeFree(kind0, kind, lo, p) && (p == lo || p <= hi)
        invariant (p + 1) * PGSIZE <= paEnd <==> p < hi
        decreases hi - p
      {
        RangeFreeNext(kind0, kind, lo, p);
        Kfree(p, false);
        p := p + 1;
        WholePage(p, paEnd);
      }
    }

    /** kfree: the page goes to the front of the free list, filled with junk. */
    method Kfree(p: nat, ghost loose: bool)
      requires ValidWhile(loose) && p in kind && kind[p] == Other
      modifies this
      ensures ValidWhile(loose)
      ensures kind == old(kind)[p := Free] && free == [p] + old(free)
      ensures !loose ==> SameMaps(old(mem), mem, old(kind))
      ensures mem.Keys == old(mem).Keys && forall q :: q in mem && q != p ==> mem[q] == old(mem)[q]
    {
      var page: seq<nat> := seq(ENTRIES, i => 0x0101010101010101)[0 := freelist * PGSIZE];
      WritePage(mem, kind, loose, p, page, Free);
      ChainKept(mem, mem[p := page], kind, freelist, free, p);
      ListsPut(kind, free, p);
      assert ([p] + free)[1..] == free;
      mem := mem[p := page];
      kind := kind[p := Free];
      freelist := p;
      free := [p] + free;
    }

    /** kalloc: a page off the front of the free list, filled with junk, or 0 if there is none. */
    method Kalloc() returns (p: nat)
      requires Valid()
      modifies this
      ensures Valid()
      ensures p == 0 <==> old(free) == []
      ensures p == 0 ==> mem == old(mem) && kind == old(kind) && free == old(free)
      ensures p != 0 ==> p in old(kind) && old(kind)[p] == Free && kind == old(kind)[p := Other]
                         && free == old(free)[1..]
      ensures mem.Keys == old(mem).Keys && forall q :: q in mem && q != p ==> mem[q] == old(mem)[q]
      ensures SameMaps(old(mem), mem, old(kind))
    {
      p := freelist;
      if p != 0 {
        ListsTake(kind, free, Other);
        freelist := mem[p][0] / PGSIZE;
        var page: seq<nat> := seq(ENTRIES, i => 0x0505050505050505);
        WritePage(mem, kind, false, p, page, Other);
        ChainFrame(mem, mem[p := page], freelist, free[1..]);
        mem := mem[p := page];
        kind := kind[p := Other];
        free := free[1..];
      }
    }

    /** memset or memmove of a whole allocated page. */
    method Fill(p: nat, page: seq<nat>)
      requires Valid() && p in kind && kind[p] == Other && |page| == ENTRIES
      modifies this`mem
      ensures Valid() && mem == old(mem)[p := page]
      ensures SameMaps(old(mem), mem, kind)
    {
      WritePage(mem, kind, false, p, page, Other);
      assert kind[p := Other] == kind;
      ChainKept(mem, mem[p := page], kind, freelist, free, p);
      mem := mem[p := page];
    }

    /** The part of walk that creates a missing table page: 0 if out of memory. */
    method NewTable(p: nat, i: nat) returns (q: nat)
      requires Valid() && p in kind && kind[p].Table? && 0 < kind[p].level <= 2 && i < ENTRIES && !IsValid(mem[p][i])
      requires PrefixOk(kind[p].level - 1, kind[p].prefix * 512 + i)
      modifies this
      ensures Valid() && SameMaps(old(mem), mem, old(kind))
      ensures q == 0 ==> mem == old(mem) && kind == old(kind) && free == old(free) == []
      ensures q != 0 ==> var k := old(kind)[p];
                         q in old(kind) && old(kind)[q] == Free
                         && kind == old(kind)[q := Table(k.root, k.level - 1, k.prefix * 512 + i, p)]
      ensures OldPages(old(mem), mem, old(kind)) && |free| == |old(free)| - if q == 0 then 0 else 1
    {
      ghost var mem0, kind0 := mem, kind;
      q := Kalloc();
      if q == 0 { return; }
      ghost var mem1, kind1 := mem, kind;
      Fill(q, Zeros());
      MapsTrans(mem0, mem1, mem, kind0, kind1);
      q := Hang(p, i, q, mem0, kind0);
    }

    /** Hang the zeroed page q into entry i of table page p. */
    method Hang(p: nat, i: nat, z: nat, ghost mem0: Memory, ghost kind0: Kinds) returns (q: nat)
      requires Valid() && p in kind && kind[p].Table? && 0 < kind[p].level <= 2 && i < ENTRIES && !IsValid(mem[p][i])
      requires PrefixOk(kind[p].level - 1, kind[p].prefix * 512 + i)
      requires z in kind && kind[z] == Other && ZeroPage(mem[z]) && kind.Keys == kind0.Keys
      requires SameMaps(mem0, mem, kind0) && forall r :: IsRoot(kind0, r) ==> IsRoot(kind, r)
      modifies this`mem, this`kind
      ensures Valid() && SameMaps(mem0, mem, kind0) && q == z
      ensures var k := old(kind)[p]; kind == old(kind)[q := Table(k.root, k.level - 1, k.prefix * 512 + i, p)]
      ensures mem.Keys == old(mem).Keys && forall r :: r in mem && r != p ==> mem[r] == old(mem)[r]
    {
      q := z;
      ghost var mem1 := mem;
      LinkTable(mem, kind, p, i, q);
      mem := SetEntry(mem, p, i, q * 1024 + 1);
      MapsTrans(mem0, mem1, mem, kind0, kind);
      ChainKept(mem1, mem, kind, freelist, free, p);
      ListsKept(kind, kind[q := Table(kind[p].root, kind[p].level - 1, kind[p].prefix * 512 + i, p)], free);
      kind := kind[q := Table(kind[p].root, kind[p].level - 1, kind[p].prefix * 512 + i, p)];
    }

    /** walk: the level-0 table page that holds v's entry, or 0.  With `alloc` missing table pages are
        created; either way every translation of every address space stays as it was. */
    method Walk(root: nat, v: nat, alloc: bool) returns (p: nat)
      requires Valid() && IsRoot(kind, root) && v < MAXVPN
      modifies this
      ensures Valid() && SameMaps(old(mem), mem, old(kind)) && Grown(old(kind), kind, root)
      ensures OldPages(old(mem), mem, old(kind)) && |old(free)| - 2 <= |free| <= |old(free)|
      ensures !alloc ==> mem == old(mem) && kind == old(kind) && free == old(free)
      ensures p != 0 ==> p in kind && kind[p].Table? && kind[p].root == root && kind[p].level == 0
                         && kind[p].prefix == v / 512
      ensures p == Node(mem, root, v, 0)
      ensures p == 0 && alloc ==> free == [] && |old(free)| <= 1
    {
      p := root;
      var level := 2;
      while level > 0
        invariant level <= 2 && Walking(old(mem), old(kind), root) && At(kind, p, root, v, level)
        invariant |old(free)| - (2 - level) <= |free| <= |old(free)|
        invariant !alloc ==> mem == old(mem) && kind == old(kind) && free == old(free)
      {
        level := level - 1;
        p := StepDown(root, v, level, p, alloc, old(mem), old(kind));
        if p == 0 { return; }
      }
      NodeFinds(mem, kind, p, v);
    }

    /** walk has created table pages only. */
    ghost predicate Walking(mem0: Memory, kind0: Kinds, root: nat)
      reads this
    {
      Valid() && SameMaps(mem0, mem, kind0) && Grown(kind0, kind, root) && OldPages(mem0, mem, kind0)
    }

    /** One turn of walk's loop, from p down to the page of `level`. */
    method StepDown(root: nat, v: nat, level: nat, p: nat, alloc: bool, ghost mem0: Memory, ghost kind0: Kinds)
      returns (q: nat)
      requires Walking(mem0, kind0, root) && v < MAXVPN && level < 2 && At(kind, p, root, v, level + 1)
      modifies this
      ensures Walking(mem0, kind0, root) && |old(free)| - 1 <= |free| <= |old(free)|
      ensures !alloc ==> mem == old(mem) && kind == old(kind) && free == old(free)
      ensures q != 0 ==> At(kind, q, root, v, level)
      ensures q == 0 ==> Node(mem, root, v, 0) == 0 && (alloc ==> free == old(free) == [])
    {
      var i := Index(v, level + 1);
      NextPrefix(v, level + 1);
      assert EntryOk(mem, kind, p, i);
      NodeFinds(mem, kind, p, v);
      if IsValid(mem[p][i]) {
        return Ppn(mem[p][i]);
      }
      if !alloc {
        DeadPath(mem, root, v, level);
        return 0;
      }
      ghost var mem1, kind1 := mem, kind;
      q := NewTable(p, i);
      if q == 0 {
        DeadPath(mem, root, v, level);
      } else {
        MapsTrans(mem0, mem1, mem, kind0, kind1);
      }
    }

    /** One turn of mappages' loop: map v to page ppn.  With `own` the page becomes the process's. */
    method MapOne(root: nat, v: nat, ppn: nat, flags: nat, ghost own: bool) returns (ok: bool)
      requires Valid() && IsRoot(kind, root) && v < MAXVPN && Lookup(mem, root, v) == 0
      requires IsValid(flags) && flags != 1 && flags < 1024
      requires own ==> ppn in kind && kind[ppn] == Other
      modifies this
      ensures Valid() && OldPages(old(mem), mem, old(kind)) && |old(free)| - 2 <= |free| <= |old(free)|
      ensures !ok ==> SameMaps(old(mem), mem, old(kind)) && Grown(old(kind), kind, root) && |old(free)| <= 1
      ensures ok ==> MapsSet(old(mem), mem, old(kind), root, v, ppn * 1024 + flags)
      ensures ok && !own ==> Grown(old(kind), kind, root)
      ensures ok && own ==> IsUser(kind, ppn, root, v) && Grown(old(kind), kind[ppn := Other], root)
    {
      ghost var mem0, kind0 := mem, kind;
      var p := Walk(root, v, true);
      if p == 0 { return false; }
      assert Lookup(mem, root, v) == 0;
      FillPte(p, root, v, ppn, flags, own, mem0, kind0);
      ok := true;
    }

    /** mappages after walk has found the entry: fill it in. */
    method FillPte(p: nat, root: nat, v: nat, ppn: nat, flags: nat, ghost own: bool, ghost mem0: Memory,
                   ghost kind0: Kinds)
      requires Valid() && v < MAXVPN && IsValid(flags) && flags != 1 && flags < 1024
      requires p in kind && kind[p].Table? && kind[p].root == root && kind[p].level == 0 && kind[p].prefix == v / 512
      requires !IsValid(mem[p][v % 512]) && (own ==> ppn in kind0 && kind0[ppn] == Other)
      requires SameMaps(mem0, mem, kind0) && Grown(kind0, kind, root) && OldPages(mem0, mem, kind0)
      modifies this`mem, this`kind
      ensures Valid() && OldPages(mem0, mem, kind0)
      ensures MapsSet(mem0, mem, kind0, root, v, ppn * 1024 + flags)
      ensures if own then IsUser(kind, ppn, root, v) && Grown(kind0, kind[ppn := Other], root)
              else Grown(kind0, kind, root)
    {
      ghost var mem1, kind1 := mem, kind;
      ghost var kind2 := if own then kind[ppn := User(root, v, p)] else kind;
      FreshLeaf(mem, kind, kind2, p, v, ppn, flags);
      SetPte(p, v, ppn * 1024 + flags, kind2);
      GrownRoots(kind0, kind1, root);
      MapsSetAfter(mem0, mem1, mem, kind0, kind1, root, v, ppn * 1024 + flags);
      assert own ==> kind2[ppn := Other] == kind1;
    }

    /** mappages: the pages that va .. va + size - 1 touches, mapped to consecutive physical pages.
        If a table page cannot be allocated, the pages before it stay mapped. */
    method Mappages(root: nat, va: nat, size: nat, pa: nat, perm: nat, ghost own: bool)
      returns (ok: bool, ghost done: nat)
      requires Valid() && IsRoot(kind, root) && size > 0 && (va + size - 1) / PGSIZE < MAXVPN
      requires perm < 1024 && WithValid(perm) != 1
      requires forall v :: va / PGSIZE <= v <= (va + size - 1) / PGSIZE ==> Lookup(mem, root, v) == 0
      requires own ==> va % PGSIZE == 0 && size == PGSIZE && pa / PGSIZE in kind && kind[pa / PGSIZE] == Other
      modifies this
      ensures Valid() && OldPages(old(mem), mem, old(kind)) && |free| <= |old(free)|
      ensures RangeSet(old(mem), mem, old(kind), root, va / PGSIZE, done, pa / PGSIZE, WithValid(perm))
      ensures if ok then done == (va + size - 1) / PGSIZE - va / PGSIZE + 1 && |old(free)| - 2 * done <= |free|
              else done <= (va + size - 1) / PGSIZE - va / PGSIZE && |old(free)| <= 2 * done + 1
      ensures own && ok ==> IsUser(kind, pa / PGSIZE, root, va / PGSIZE)
                            && Grown(old(kind), kind[pa / PGSIZE := Other], root)
      ensures !own || !ok ==> Grown(old(kind), kind, root)
    {
      var first, last, ppn := va / PGSIZE, (va + size - 1) / PGSIZE, pa / PGSIZE;
      ghost var mem0, kind0 := mem, kind;
      done := 0;
      var v := first;
      while true
        invariant first <= v <= last && done == v - first
        invariant Mapping(mem0, kind0, root, first, done, ppn, WithValid(perm)) && Grown(kind0, kind, root)
        invariant |old(free)| - 2 * done <= |free| <= |old(free)|
        decreases last - v
      {
        ok := MapNext(root, v, ppn + (v - first), WithValid(perm), own, mem0, kind0, first, done, ppn);
        if !ok { return; }
        done := done + 1;
        if v == last { break; }
        v := v + 1;
      }
    }

    /** mappages has mapped `done` pages. */
    ghost predicate Mapping(mem0: Memory, kind0: Kinds, root: nat, first: nat, done: nat, ppn: nat, flags: nat)
      reads this
    {
      Valid() && Reached(mem0, kind0, mem, kind, root, first, done, ppn, flags)
    }

    method MapNext(root: nat, v: nat, page: nat, flags: nat, ghost own: bool, ghost mem0: Memory, ghost kind0: Kinds,
                   ghost first: nat, ghost done: nat, ghost ppn: nat)
      returns (ok: bool)
      requires Mapping(mem0, kind0, root, first, done, ppn, flags) && Grown(kind0, kind, root)
      requires v == first + done < MAXVPN && page == ppn + done && Lookup(mem0, root, v) == 0
      requires IsValid(flags) && flags != 1 && flags < 1024 && (own ==> done == 0 && ppn in kind && kind[ppn] == Other)
      modifies this
      ensures Mapping(mem0, kind0, root, first, if ok then done + 1 else done, ppn, flags)
      ensures |old(free)| - 2 <= |free| <= |old(free)|
      ensures !ok ==> Grown(kind0, kind, root) && |old(free)| <= 1
      ensures ok ==> if own then IsUser(kind, ppn, root, first) && Grown(kind0, kind[ppn := Other], root)
                     else Grown(kind0, kind, root)
    {
      ghost var mem1, kind1 := mem, kind;
      ok := MapOne(root, v, page, flags, own);
      if ok {
        ReachedMore(mem0, mem1, mem, kind0, kind1, kind, root, first, done, ppn, flags, own);
      } else {
        ReachedSame(mem0, mem1, mem, kind0, kind1, kind, root, first, done, ppn, flags);
      }
    }

    /** One turn of uvmunmap's loop with do_free. */
    method FreeOne(root: nat, v: nat)
      requires Valid() && IsRoot(kind, root) && v < MAXVPN && Lookup(mem, root, v) != 0
      requires IsUser(kind, Ppn(Lookup(mem, root, v)), root, v)
      modifies this
      ensures Valid() && MapsSet(old(mem), mem, old(kind), root, v, 0)
      ensures kind == old(kind)[Ppn(old(Lookup(mem, root, v))) := Free]
      ensures Kept(old(mem), mem, old(kind), kind)
    {
      ghost var mem0, kind0 := mem, kind;
      var pte := ClearPte(root, v);
      ghost var mem1, kind1 := mem, kind;
      Kfree(Ppn(pte), false);
      MapsSetThen(mem0, mem1, mem, kind0, kind1, root, v, 0);
      KeptAfterFree(mem0, mem1, mem, kind0, Ppn(pte));
    }

    /** Clear v's entry and return what it was. */
    method ClearPte(root: nat, v: nat) returns (pte: nat)
      requires Valid() && IsRoot(kind, root) && v < MAXVPN && Lookup(mem, root, v) != 0
      modifies this
      ensures pte == old(Lookup(mem, root, v))
      ensures Valid() && MapsSet(old(mem), mem, old(kind), root, v, 0)
      ensures kind == if IsUser(old(kind), Ppn(pte), root, v) then old(kind)[Ppn(pte) := Other] else old(kind)
      ensures OldPages(old(mem), mem, old(kind))
    {
      var p := Walk(root, v, false);
      pte := mem[p][v % 512];
      ghost var kind1 := if IsUser(kind, Ppn(pte), root, v) then kind[Ppn(pte) := Other] else kind;
      ClearLeaf(mem, kind, kind1, p, root, v);
      SetPte(p, v, 0, kind1);
    }

    /** uvmunmap: remove n mappings that exist, and with doFree give the pages back. */
    method Uvmunmap(root: nat, v0: nat, n: nat, doFree: bool)
      requires Valid() && IsRoot(kind, root) && v0 + n <= MAXVPN
      requires AllMapped(mem, kind, root, v0, n, doFree)
      modifies this
      ensures Unmapping(old(mem), old(kind), root, v0, n, doFree)
    {
      ghost var mem0, kind0 := mem, kind;
      var k := 0;
      while k < n
        invariant k <= n && Unmapping(mem0, kind0, root, v0, k, doFree)
      {
        assert AllMapped(mem0, kind0, root, v0 + k, 1, doFree);
        UnmapNext(root, v0 + k, doFree, mem0, kind0, v0, k);
        k := k + 1;
      }
    }

    /** The k pages from v0 on are unmapped, no other translation has changed, and with doFree exactly
        the process's pages among them have become free. */
    ghost predicate Unmapping(mem0: Memory, kind0: Kinds, root: nat, v0: nat, k: nat, doFree: bool)
      reads this
    {
      && Valid() && RangeCleared(mem0, mem, kind0, root, v0, k) && Kept(mem0, mem, kind0, kind)
      && if doFree then Unmapped(kind0, kind, root, v0, k) else kind == kind0
    }

    method UnmapNext(root: nat, v: nat, doFree: bool, ghost mem0: Memory, ghost kind0: Kinds, ghost v0: nat,
                     ghost k: nat)
      requires Unmapping(mem0, kind0, root, v0, k, doFree) && IsRoot(kind0, root) && v == v0 + k < MAXVPN
      requires AllMapped(mem0, kind0, root, v, 1, doFree)
      modifies this
      ensures Unmapping(mem0, kind0, root, v0, k + 1, doFree)
    {
      ghost var mem1, kind1, u := mem, kind, Ppn(Lookup(mem, root, v));
      assert IsRoot(kind, root) && Lookup(mem, root, v) == Lookup(mem0, root, v) != 0;
      if doFree {
        FreeOne(root, v);
        UnmappedGrows(mem1, kind0, kind1, root, v0, k, u);
      } else {
        var pte := ClearPte(root, v);
      }
      ClearGrows(mem0, mem1, mem, kind0, kind1, root, v0, k);
    }

    /** uvmdealloc: shrink from oldsz to newsz bytes. */
    method Uvmdealloc(root: nat, oldsz: nat, newsz: nat) returns (sz: nat)
      requires Valid() && IsRoot(kind, root) && Pages(oldsz) <= MAXVPN
      requires newsz < oldsz ==> AllMapped(mem, kind, root, Pages(newsz), Pages(oldsz) - Pages(newsz), true)
      modifies this
      ensures sz == if newsz >= oldsz then oldsz else newsz
      ensures Unmapping(old(mem), old(kind), root, Pages(newsz), if newsz < oldsz then Pages(oldsz) - Pages(newsz)
                        else 0, true)
    {
      if newsz >= oldsz {
        return oldsz;
      }
      if Pages(newsz) < Pages(oldsz) {
        Uvmunmap(root, Pages(newsz), Pages(oldsz) - Pages(newsz), true);
      }
      return newsz;
    }

    /** kalloc, then memset or memmove: a page with the given contents. */
    method FilledPage(page: seq<nat>) returns (pg: nat)
      requires Valid() && |page| == ENTRIES
      modifies this
      ensures Valid() && SameMaps(old(mem), mem, old(kind)) && OldPages(old(mem), mem, old(kind))
      ensures pg == 0 ==> kind == old(kind)
      ensures |free| == |old(free)| - if pg == 0 then 0 else 1
      ensures pg == 0 <==> old(free) == []
      ensures pg != 0 ==> pg in old(kind) && old(kind)[pg] == Free && kind == old(kind)[pg := Other] && mem[pg] == page
    {
      ghost var mem0, kind0 := mem, kind;
      pg := Kalloc();
      if pg != 0 {
        ghost var mem1, kind1 := mem, kind;
        Fill(pg, page);
        MapsTrans(mem0, mem1, mem, kind0, kind1);
      }
    }

    /** One turn of the loops of uvmalloc and uvmcopy: a new page at v, or nothing but table pages. */
    method AddPage(root: nat, v: nat, flags: nat, page: seq<nat>) returns (ok: bool)
      requires Valid() && IsRoot(kind, root) && (free == [] || (v < MAXVPN && Lookup(mem, root, v) == 0))
      requires IsValid(flags) && 1 < flags < 1024 && |page| == ENTRIES
      modifies this
      ensures Valid() && OldPages(old(mem), mem, old(kind))
      ensures if ok then |old(free)| - 3 <= |free| < |old(free)| else |old(free)| <= 2
      ensures !ok ==> SameMaps(old(mem), mem, old(kind)) && Grown(old(kind), kind, root)
      ensures ok ==> HasPage(mem, kind, root, v, Want(flags, page)) && GrownUsers(old(kind), kind, root, v, v + 1)
                     && MapsSet(old(mem), mem, old(kind), root, v, Lookup(mem, root, v))
    {
      ghost var mem0, kind0 := mem, kind;
      var pg := FilledPage(page);
      if pg == 0 { return false; }
      ok := MapPage(root, v, flags, pg, mem0, kind0);
    }

    /** mappages of one page, which becomes the process's. */
    method MapOwn(root: nat, v: nat, flags: nat, pg: nat) returns (ok: bool)
      requires Valid() && IsRoot(kind, root) && v < MAXVPN && Lookup(mem, root, v) == 0 && IsValid(flags)
               && 1 < flags < 1024
      requires pg in kind && kind[pg] == Other
      modifies this
      ensures Valid() && OldPages(old(mem), mem, old(kind)) && |free| <= |old(free)|
      ensures if ok then |old(free)| - 2 <= |free| else |old(free)| <= 1
      ensures RangeSet(old(mem), mem, old(kind), root, v, if ok then 1 else 0, pg, flags)
      ensures if ok then IsUser(kind, pg, root, v) && Grown(old(kind), kind[pg := Other], root)
              else Grown(old(kind), kind, root)
    {
      PageAddress(v);
      PageAddress(pg);
      ValidFlags(flags);
      ghost var done;
      ok, done := Mappages(root, v * PGSIZE, PGSIZE, pg * PGSIZE, flags - 1, true);
    }

    /** Map the page just taken, or give it back. */
    method MapPage(root: nat, v: nat, flags: nat, pg: nat, ghost mem0: Memory, ghost kind0: Kinds) returns (ok: bool)
      requires Valid() && IsRoot(kind0, root) && v < MAXVPN && Lookup(mem0, root, v) == 0 && IsValid(flags)
               && 1 < flags < 1024
      requires SameMaps(mem0, mem, kind0) && OldPages(mem0, mem, kind0)
      requires pg in kind0 && kind0[pg] == Free && kind == kind0[pg := Other]
      modifies this
      ensures Valid() && OldPages(mem0, mem, kind0)
      ensures if ok then |old(free)| - 2 <= |free| <= |old(free)| else |old(free)| <= 1
      ensures !ok ==> SameMaps(mem0, mem, kind0) && Grown(kind0, kind, root)
      ensures ok ==> HasPage(mem, kind, root, v, Want(flags, old(mem)[pg])) && GrownUsers(kind0, kind, root, v, v + 1)
                     && MapsSet(mem0, mem, kind0, root, v, Lookup(mem, root, v))
    {
      ghost var mem1, kind1 := mem, kind;
      ok := MapOwn(root, v, flags, pg);
      ghost var mem2, kind2 := mem, kind;
      LeafPte(pg, flags);
      PageMapped(mem0, mem1, mem2, kind0, kind1, kind2, root, v, pg, flags, ok);
      if !ok {
        Kfree(pg, false);
        MapsTrans(mem0, mem2, mem, kind0, kind2);
      }
    }

    /** uvmalloc: grow from oldsz to newsz bytes with zeroed pages.  Returns the new size, or 0 when out
        of memory; then every translation is as before and every data page has been given back.  newsz is
        not bounded: memory runs out before the walk would leave the virtual address space, provided the
        pages that could be filled, one for each free page, are below MAXVA and unused. */
    method Uvmalloc(root: nat, oldsz: nat, newsz: nat, xperm: nat) returns (sz: nat)
      requires Valid() && IsRoot(kind, root) && xperm in {0, 4, 8, 12}
      requires Pages(oldsz) + |free| <= MAXVPN && Unused(mem, root, Pages(oldsz), |free|)
      modifies this
      ensures Valid()
      ensures newsz < oldsz ==> sz == oldsz && mem == old(mem) && kind == old(kind) && free == old(free)
      ensures newsz >= oldsz ==> sz == newsz || sz == 0
      ensures newsz >= oldsz && sz == newsz ==>
                Pages(newsz) - Pages(oldsz) <= |old(free)| - |free| <= 3 * (Pages(newsz) - Pages(oldsz))
      ensures newsz >= oldsz && sz == newsz ==>
                Grew(old(mem), old(kind), mem, kind, root, Pages(oldsz), Pages(newsz) - Pages(oldsz),
                     WantZeros(Pages(newsz), 19 + xperm))
      ensures newsz >= oldsz && sz != newsz ==> Undone(old(mem), old(kind), mem, kind, root)
                                                && |old(free)| < 3 * (Pages(newsz) - Pages(oldsz))
    {
      if newsz < oldsz {
        return oldsz;
      }
      ghost var mem0, kind0, room, wants := mem, kind, |free|, WantZeros(Pages(newsz), 19 + xperm);
      var v0, v := Pages(oldsz), Pages(oldsz);
      while v * PGSIZE < newsz
        invariant v0 <= v <= Pages(newsz) && Growing(mem0, kind0, root, v0, v - v0, wants, room)
        decreases Pages(newsz) - v
      {
        var ok := GrowZero(root, v0, v, 19 + xperm, mem0, kind0, wants, room);
        if !ok { return 0; }
        v := v + 1;
      }
      return newsz;
    }

    /** uvmalloc has added k pages, and used up at least as many of the `room` free ones. */
    ghost predicate Growing(mem0: Memory, kind0: Kinds, root: nat, v0: nat, k: nat, wants: seq<Want>, room: nat)
      reads this
    {
      Valid() && Grew(mem0, kind0, mem, kind, root, v0, k, wants) && room - 3 * k <= |free| <= room - k
    }

    /** One turn of uvmalloc's loop, with the way out. */
    method GrowZero(root: nat, v0: nat, v: nat, flags: nat, ghost mem0: Memory, ghost kind0: Kinds,
                    ghost wants: seq<Want>, ghost room: nat)
      returns (ok: bool)
      requires v0 <= v && Growing(mem0, kind0, root, v0, v - v0, wants, room) && Inv(mem0, kind0) && IsRoot(kind0, root)
      requires v0 + room <= MAXVPN && Unused(mem0, root, v0, room) && IsValid(flags) && 1 < flags < 1024
      requires v < |wants| && wants[v] == Want(flags, Zeros())
      modifies this
      ensures ok ==> Growing(mem0, kind0, root, v0, v + 1 - v0, wants, room)
      ensures !ok ==> Valid() && Undone(mem0, kind0, mem, kind, root) && room < 3 * (v + 1 - v0)
    {
      ok := GrowNext(root, v0, v - v0, flags, Zeros(), mem0, kind0, wants);
      if !ok {
        ShrinkTo(root, v0, v - v0, wants, mem0, kind0);
      }
    }

    /** One more page, with its contents and flags; if it fails, the pages before it are still there. */
    method GrowNext(root: nat, v0: nat, k: nat, flags: nat, page: seq<nat>, ghost mem0: Memory, ghost kind0: Kinds,
                    ghost wants: seq<Want>) returns (ok: bool)
      requires Valid() && Grew(mem0, kind0, mem, kind, root, v0, k, wants) && IsRoot(kind0, root)
      requires free == [] || (v0 + k < MAXVPN && Lookup(mem0, root, v0 + k) == 0)
      requires IsValid(flags) && 1 < flags < 1024 && |page| == ENTRIES && v0 + k <= MAXVPN
      requires v0 + k < |wants| && wants[v0 + k] == Want(flags, page)
      modifies this
      ensures Valid() && Grew(mem0, kind0, mem, kind, root, v0, if ok then k + 1 else k, wants)
      ensures if ok then |old(free)| - 3 <= |free| < |old(free)| else |old(free)| <= 2
    {
      ghost var mem1, kind1 := mem, kind;
      GrewRoots(mem0, kind0, mem, kind, root, v0, k, wants);
      ok := AddPage(root, v0 + k, flags, page);
      if ok {
        GrewMore(mem0, kind0, mem1, kind1, mem, kind, root, v0, k, wants);
      } else {
        GrewTables(mem0, kind0, mem1, kind1, mem, kind, root, v0, k, wants);
      }
    }

    /** uvmalloc's way out: give back the k pages added so far. */
    method ShrinkTo(root: nat, v0: nat, k: nat, ghost wants: seq<Want>, ghost mem0: Memory, ghost kind0: Kinds)
      requires Valid() && Inv(mem0, kind0) && Grew(mem0, kind0, mem, kind, root, v0, k, wants) && IsRoot(kind0, root)
      requires v0 + k <= MAXVPN && Unused(mem0, root, v0, k)
      modifies this
      ensures Valid() && Undone(mem0, kind0, mem, kind, root)
    {
      ghost var mem1, kind1 := mem, kind;
      GrewRoots(mem0, kind0, mem, kind, root, v0, k, wants);
      assert Pages(v0 * PGSIZE) == v0 && Pages((v0 + k) * PGSIZE) == v0 + k;
      var sz := Uvmdealloc(root, (v0 + k) * PGSIZE, v0 * PGSIZE);
      ShrunkBack(mem0, kind0, mem1, kind1, mem, kind, root, v0, k, wants);
    }

    /** uvmcopy: give the empty address space `child` copies of the first sz bytes' pages of `parent`, with
        the same flags.  On failure the child has no page and no translation has changed. */
    method Uvmcopy(parent: nat, child: nat, sz: nat) returns (ok: bool)
      requires Valid() && IsRoot(kind, parent) && IsRoot(kind, child) && parent != child && Pages(sz) <= MAXVPN
      requires AllMapped(mem, kind, parent, 0, Pages(sz), true) && Unused(mem, child, 0, Pages(sz))
      modifies this
      ensures Valid()
      ensures ok ==> Grew(old(mem), old(kind), mem, kind, child, 0, Pages(sz), Copies(old(mem), parent, Pages(sz)))
      ensures !ok ==> Undone(old(mem), old(kind), mem, kind, child) && |old(free)| < 3 * Pages(sz)
    {
      ghost var mem0, kind0, wants := mem, kind, Copies(mem, parent, Pages(sz));
      var i := 0;
      while i * PGSIZE < sz
        invariant i <= Pages(sz) && Valid() && Grew(mem0, kind0, mem, kind, child, 0, i, wants)
        invariant |old(free)| - 3 * i <= |free|
        decreases Pages(sz) - i
      {
        assert Unused(mem0, child, 0, i + 1);
        ok := CopyNext(parent, child, i, Pages(sz), mem0, kind0, wants);
        if !ok {
          CopyFails(child, i, wants, mem0, kind0);
          return;
        }
        i := i + 1;
      }
      ok := true;
    }

    /** One turn of uvmcopy's loop. */
    method CopyNext(parent: nat, child: nat, i: nat, ghost n: nat, ghost mem0: Memory, ghost kind0: Kinds,
                    ghost wants: seq<Want>)
      returns (ok: bool)
      requires Valid() && Inv(mem0, kind0) && IsRoot(kind0, parent) && IsRoot(kind0, child) && parent != child
               && i < n <= MAXVPN
      requires Grew(mem0, kind0, mem, kind, child, 0, i, wants) && wants == Copies(mem0, parent, n)
      requires AllMapped(mem0, kind0, parent, 0, n, true) && Unused(mem0, child, 0, i + 1)
      modifies this
      ensures Valid() && Grew(mem0, kind0, mem, kind, child, 0, if ok then i + 1 else i, wants)
      ensures if ok then |old(free)| - 3 <= |free| else |old(free)| <= 2
    {
      GrewRoots(mem0, kind0, mem, kind, child, 0, i, wants);
      ParentPage(mem0, kind0, mem, kind, parent, child, i, n, wants);
      var p := Walk(parent, i, false);
      var pte := mem[p][i % 512];
      ok := GrowNext(child, 0, i, Flags(pte), mem[Ppn(pte)], mem0, kind0, wants);
    }

    /** uvmcopy's way out. */
    method CopyFails(root: nat, k: nat, ghost wants: seq<Want>, ghost mem0: Memory, ghost kind0: Kinds)
      requires Valid() && Inv(mem0, kind0) && Grew(mem0, kind0, mem, kind, root, 0, k, wants) && IsRoot(kind0, root)
      requires k <= MAXVPN && Unused(mem0, root, 0, k)
      modifies this
      ensures Valid() && Undone(mem0, kind0, mem, kind, root)
    {
      ghost var mem1, kind1 := mem, kind;
      GrewRoots(mem0, kind0, mem, kind, root, 0, k, wants);
      Uvmunmap(root, 0, k, true);
      ShrunkBack(mem0, kind0, mem1, kind1, mem, kind, root, 0, k, wants);
    }

    /** freewalk: free the table page p and every table page below it.  No mapping may be left. */
    method Freewalk(p: nat, ghost root: nat, ghost level: nat, ghost prefix: nat)
      requires ValidWhile(true) && Cut(kind, p, root, level, prefix) && Bare(mem, kind, root)
      modifies this
      ensures ValidWhile(true) && Freed(old(kind), kind, root, level, prefix)
      ensures Untouched(old(mem), mem, old(kind), kind)
      decreases level
    {
      ghost var mem0, kind0 := mem, kind;
      var i := 0;
      FreedNone(kind, root, level, prefix);
      while i < ENTRIES
        invariant i <= ENTRIES && Freeing(mem0, kind0, p, root, level, prefix, i)
      {
        FreeEntry(p, root, level, prefix, i, mem0, kind0);
        i := i + 1;
      }
      FreeTable(p, root, level, prefix, mem0, kind0);
    }

    /** The kfree at the end of freewalk. */
    method FreeTable(p: nat, ghost root: nat, ghost level: nat, ghost prefix: nat, ghost mem0: Memory,
                     ghost kind0: Kinds)
      requires Freeing(mem0, kind0, p, root, level, prefix, ENTRIES) && Cut(kind0, p, root, level, prefix)
      modifies this
      ensures ValidWhile(true) && Freed(kind0, kind, root, level, prefix) && Untouched(mem0, mem, kind0, kind)
    {
      Retire(mem, kind, p, root, level, prefix);
      ghost var mem1, kind1 := mem, kind;
      ListsKept(kind, kind[p := Other], free);
      kind := kind[p := Other];
      Kfree(p, true);
      FreeStateDone(mem0, kind0, mem1, kind1, mem, p, root, level, prefix);
    }

    /** freewalk has dealt with the entries before i. */
    ghost predicate Freeing(mem0: Memory, kind0: Kinds, p: nat, root: nat, level: nat, prefix: nat, i: nat)
      reads this
    {
      ValidWhile(true) && FreeState(mem0, kind0, mem, kind, p, root, level, prefix, i)
    }

    method FreeEntry(p: nat, ghost root: nat, ghost level: nat, ghost prefix: nat, i: nat, ghost mem0: Memory,
                     ghost kind0: Kinds)
      requires Freeing(mem0, kind0, p, root, level, prefix, i) && i < ENTRIES
      modifies this
      ensures Freeing(mem0, kind0, p, root, level, prefix, i + 1)
      decreases level, 1
    {
      if IsValid(mem[p][i]) {
        FreeChild(p, root, level, prefix, i, mem0, kind0);
      } else {
        FreedSkip(mem, kind0, kind, p, root, level, prefix, i);
      }
    }

    method FreeChild(p: nat, ghost root: nat, ghost level: nat, ghost prefix: nat, i: nat, ghost mem0: Memory,
                     ghost kind0: Kinds)
      requires Freeing(mem0, kind0, p, root, level, prefix, i) && i < ENTRIES && level > 0 && IsValid(mem[p][i])
      modifies this
      ensures Freeing(mem0, kind0, p, root, level, prefix, i + 1)
      decreases level, 0
    {
      ghost var mem1, kind1 := mem, kind;
      var c := Ppn(mem[p][i]);
      Unlink(p, root, level, prefix, i);
      ghost var mem2, kind2 := mem, kind;
      Freewalk(c, root, level - 1, prefix * 512 + i);
      FreeStateNext(mem0, mem1, mem2, mem, kind0, kind1, kind2, kind, p, root, level, prefix, i, c);
    }

    /** pagetable[i] = 0, cutting off the child. */
    method Unlink(p: nat, ghost root: nat, ghost level: nat, ghost prefix: nat, i: nat)
      requires ValidWhile(true) && Cut(kind, p, root, level, prefix) && Bare(mem, kind, root) && 0 < level
               && i < ENTRIES
      requires IsValid(mem[p][i])
      modifies this`mem, this`kind
      ensures ValidWhile(true) && Bare(mem, kind, root) && mem == SetEntry(old(mem), p, i, 0)
      ensures var c := Ppn(old(mem)[p][i]);
              && c in old(kind) && c != p && old(kind)[c] == Table(root, level - 1, prefix * 512 + i, p)
              && kind == old(kind)[c := Detach(old(kind)[c])] && Cut(kind, c, root, level - 1, prefix * 512 + i)
    {
      ghost var c, mem1, kind1 := Ppn(mem[p][i]), mem, kind;
      CutChild(mem, kind, p, root, level, prefix, i);
      mem := SetEntry(mem, p, i, 0);
      kind := kind[c := Detach(kind[c])];
      ChainKept(mem1, mem, kind1, freelist, free, p);
      ListsKept(kind1, kind, free);
    }

    /** *pte = x, for the entry of v in its level-0 table page p. */
    method SetPte(p: nat, v: nat, pte: nat, ghost kind': Kinds)
      requires Valid() && p in kind && kind[p].Table? && kind[p].level == 0 && kind[p].prefix == v / 512 && v < MAXVPN
      requires (IsValid(pte) ==> Flags(pte) != 1) && LeafChange(mem, kind, kind', p, v, pte)
      modifies this`mem, this`kind
      ensures Valid() && kind == kind'
      ensures MapsSet(old(mem), mem, old(kind), old(kind)[p].root, v, pte)
      ensures mem.Keys == old(mem).Keys && forall q :: q in mem && q != p ==> mem[q] == old(mem)[q]
    {
      ghost var mem1 := mem;
      SetLeaf(mem, kind, kind', p, v, pte);
      mem := SetEntry(mem, p, v % 512, pte);
      ChainKept(mem1, mem, kind, freelist, free, p);
      ListsKept(kind, kind', free);
      kind := kind';
    }
  }
}
