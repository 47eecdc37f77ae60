/** exec's address space (kernel/exec.c): the new image is built beside the old one, and either replaces
it or leaves no trace.  What the file holds is a parameter. */
module Exec {
  import opened AddressSpace
  import opened ArgStack
  import opened ByteString
  import opened ExecSpec
  import opened PageBytes
  import opened PageTable
  import opened Vm

  /** PTE_U. */
  predicate UserBit(pte: nat) {
    pte / 16 % 2 == 1
  }

  ghost predicate AllUser(mem: Memory, root: nat, n: nat) {
    forall w :: 0 <= w < n ==> UserBit(Lookup(mem, root, w))
  }

  ghost predicate AllFlags(mem: Memory, root: nat, lo: nat, hi: nat, flags: nat) {
    forall w :: lo <= w < hi ==> Flags(Lookup(mem, root, w)) == flags
  }

  /** The machine before exec, and the address space that exec is building: `total` pages in the end, for which there
      is `enough` memory or not. */
  datatype Setting = Setting(mem: Memory, kind: Kinds, root: nat, tf: nat, tramp: nat, total: nat, enough: bool)

  /** The new address space has sz bytes; everything else is as it was. */
  ghost predicate Made(g: Setting, mem: Memory, kind: Kinds, sz: nat) {
    && Built(g.mem, g.kind, mem, kind, g.root) && Space(mem, kind, g.root, sz, g.tf, g.tramp)
    && Pinned(g.kind, g.tf) && Pinned(g.kind, g.tramp)
  }

  /** And all of it is accessible to the process. */
  ghost predicate Image(g: Setting, mem: Memory, kind: Kinds, sz: nat) {
    Made(g, mem, kind, sz) && AllUser(mem, g.root, Pages(sz))
  }

  /** Not a page that could be handed to a process. */
  ghost predicate Pinned(kind: Kinds, p: nat) {
    p in kind ==> kind[p] == Other
  }

  /** exec may still give up: proc_freepagetable(pagetable, sz) would undo everything. */
  ghost predicate Undoable(m: Machine, g: Setting, sz: nat)
    reads m
  {
    m.Valid() && Made(g, m.mem, m.kind, sz)
  }

  /** The segments so far: sz bytes, which hold c.  Memory runs out before addresses do. */
  ghost predicate Loading(m: Machine, g: Setting, sz: nat, c: seq<byte>)
    reads m
  {
    && m.Valid() && Image(g, m.mem, m.kind, sz) && Pages(sz) + |m.free| <= RAMPAGES
    && Holds(m.mem, g.root, Pages(sz), c) && (g.enough ==> 3 * g.total <= |m.free| + 3 * Pages(sz))
  }

  ghost predicate Filling(g: Setting, mem: Memory, kind: Kinds, nfree: nat, sz: nat, c: seq<byte>) {
    && Image(g, mem, kind, sz) && Pages(sz) + nfree <= RAMPAGES && Holds(mem, g.root, Pages(sz), c)
    && (g.enough ==> 3 * g.total <= nfree + 3 * Pages(sz))
  }

  /** The image with its stack, which holds c. */
  ghost predicate Stacked(m: Machine, g: Setting, sz: nat, c: seq<byte>)
    reads m
  {
    m.Valid() && Made(g, m.mem, m.kind, sz) && Guarded(m.mem, g.root, Pages(sz)) && Holds(m.mem, g.root, Pages(sz), c)
  }

  /** The first n pages hold c. */
  ghost predicate Holds(mem: Memory, root: nat, n: nat, c: seq<byte>) {
    Content(mem, root, n) == c && |c| == PGSIZE * n
  }

  /** Only the page below the stack is out of the process's reach. */
  ghost predicate Guarded(mem: Memory, root: nat, n: nat) {
    n >= 2 && forall w :: 0 <= w < n ==> (UserBit(Lookup(mem, root, w)) <==> w != n - 2)
  }

  lemma FlagsUser(pte: nat)
    ensures UserBit(pte) == UserBit(Flags(pte))
  {
    var q, f := Ppn(pte), Flags(pte);
    assert pte == q * 1024 + f;
    Sixteenth(q, f);
    SameParity(q, f / 16);
  }

  lemma Sixteenth(q: nat, f: nat)
    ensures (q * 1024 + f) / 16 == q * 64 + f / 16
  {
    assert q * 1024 + f == 16 * (q * 64 + f / 16) + f % 16;
  }

  lemma SameParity(q: nat, g: nat)
    ensures (q * 64 + g) % 2 == g % 2
  {
    assert q * 64 + g == 2 * (q * 32 + g / 2) + g % 2;
  }

  /** An entry without its PTE_U bit. */
  lemma WithoutUser(pte: nat)
    requires UserBit(pte) && Flags(pte) != 17
    ensures pte >= 16 && IsValid(pte - 16) == IsValid(pte) && !UserBit(pte - 16)
    ensures Ppn(pte - 16) == Ppn(pte) && Flags(pte - 16) == Flags(pte) - 16 != 1
  {
    var q, f := Ppn(pte), Flags(pte);
    FlagsUser(pte);
    assert f / 16 >= 1 && (f - 16) / 16 == f / 16 - 1;
    assert pte - 16 == q * 1024 + (f - 16);
    LeafPte(q, f - 16);
    FlagsUser(pte - 16);
  }

  // ---- Growing --------------------------------------------------------------------------------------

  /** uvmalloc has grown the image. */
  lemma ImageGrew(g: Setting, mem1: Memory, kind1: Kinds, mem: Memory, kind: Kinds, sz: nat, newsz: nat, xperm: nat)
    requires Image(g, mem1, kind1, sz) && sz <= newsz && Pages(sz) <= Pages(newsz) <= TRAPFRAME
             && xperm in {0, 4, 8, 12}
    requires Grew(mem1, kind1, mem, kind, g.root, Pages(sz), Pages(newsz) - Pages(sz),
                  WantZeros(Pages(newsz), 19 + xperm))
    ensures Image(g, mem, kind, newsz) && AllFlags(mem, g.root, Pages(sz), Pages(newsz), 19 + xperm)
  {
    GrewMaps(mem1, kind1, mem, kind, g.root, Pages(sz), Pages(newsz), xperm);
    BuiltMore(g.mem, g.kind, mem1, kind1, mem, kind, g.root);
  }

  lemma GrewMaps(mem1: Memory, kind1: Kinds, mem: Memory, kind: Kinds, root: nat, n: nat, n': nat, xperm: nat)
    requires IsRoot(kind1, root) && n <= n' <= MAXVPN && xperm in {0, 4, 8, 12}
    requires AllMapped(mem1, kind1, root, 0, n, true) && AllUser(mem1, root, n)
    requires Grew(mem1, kind1, mem, kind, root, n, n' - n, WantZeros(n', 19 + xperm))
    ensures forall w :: 0 <= w < MAXVPN && !(n <= w < n') ==> Lookup(mem, root, w) == Lookup(mem1, root, w)
    ensures AllMapped(mem, kind, root, 0, n', true) && AllUser(mem, root, n') && IsRoot(kind, root)
    ensures AllFlags(mem, root, n, n', 19 + xperm)
  {
    GrewRoots(mem1, kind1, mem, kind, root, n, n' - n, WantZeros(n', 19 + xperm));
    forall w | 0 <= w < n' ensures UserBit(Lookup(mem, root, w))
      && (w >= n ==> Flags(Lookup(mem, root, w)) == 19 + xperm) {
      if w >= n {
        assert HasPage(mem, kind, root, w, WantZeros(n', 19 + xperm)[w]);
        FlagsUser(Lookup(mem, root, w));
      }
    }
  }

  /** A failed uvmalloc leaves the image as it was. */
  lemma ImageUndone(g: Setting, mem1: Memory, kind1: Kinds, mem: Memory, kind: Kinds, sz: nat)
    requires Image(g, mem1, kind1, sz) && Undone(mem1, kind1, mem, kind, g.root)
    ensures Made(g, mem, kind, sz)
  {
    assert SameSpace(mem1, mem, g.root);
    BuiltMore(g.mem, g.kind, mem1, kind1, mem, kind, g.root);
  }

  lemma PagesGrow(a: nat, b: nat)
    requires a <= b
    ensures Pages(a) <= Pages(b)
  {
  }

  function Larger(a: nat, b: nat): nat {
    if a < b then b else a
  }

  /** One call of uvmalloc; w is any page.  Without enough memory it fails; and growing from nothing to nothing looks
      like failure. */
  method GrowImage(m: Machine, root: nat, sz: nat, newsz: nat, xperm: nat, ghost g: Setting, ghost c: seq<byte>,
                   ghost w: nat)
    returns (sz1: nat)
    requires Loading(m, g, sz, c) && root == g.root && xperm in {0, 4, 8, 12} && Pages(newsz) <= g.total
    modifies m
    ensures sz1 == 0 ==> Undoable(m, g, sz)
    ensures sz1 != 0 ==> sz1 == Larger(newsz, sz)
    ensures sz1 != 0 ==> Loading(m, g, sz1, Extend(c, Pages(sz1)))
    ensures sz1 != 0 && Pages(sz) <= w < Pages(newsz) ==> Flags(Lookup(m.mem, root, w)) == 19 + xperm
    ensures sz1 == 0 ==> !g.enough || (sz == 0 && newsz == 0)
  {
    ghost var mem1, kind1, free1 := m.mem, m.kind, |m.free|;
    RoomAbove(g, mem1, kind1, sz, free1);
    sz1 := m.Uvmalloc(root, sz, newsz, xperm);
    if newsz >= sz {
      if sz1 == newsz {
        Filled(g, mem1, kind1, free1, m.mem, m.kind, |m.free|, sz, newsz, xperm, c);
      } else {
        NotFilled(g, mem1, kind1, free1, m.mem, m.kind, sz, newsz, c);
      }
    }
  }

  lemma Filled(g: Setting, mem1: Memory, kind1: Kinds, free1: nat, mem: Memory, kind: Kinds, nfree: nat, sz: nat,
               newsz: nat, xperm: nat, c: seq<byte>)
    requires Filling(g, mem1, kind1, free1, sz, c) && sz <= newsz && xperm in {0, 4, 8, 12} && MemOk(mem1, kind1)
    requires Pages(newsz) - Pages(sz) <= free1 - nfree <= 3 * (Pages(newsz) - Pages(sz))
    requires Grew(mem1, kind1, mem, kind, g.root, Pages(sz), Pages(newsz) - Pages(sz),
                  WantZeros(Pages(newsz), 19 + xperm))
    ensures Filling(g, mem, kind, nfree, newsz, Extend(c, Pages(newsz))) && Pages(sz) <= Pages(newsz)
    ensures AllFlags(mem, g.root, Pages(sz), Pages(newsz), 19 + xperm)
    ensures newsz == 0 ==> sz == 0
  {
    PagesGrow(sz, newsz);
    ContentGrown(mem1, kind1, mem, kind, g.root, Pages(sz), Pages(newsz), xperm);
    ImageGrew(g, mem1, kind1, mem, kind, sz, newsz, xperm);
  }

  lemma NotFilled(g: Setting, mem1: Memory, kind1: Kinds, free1: nat, mem: Memory, kind: Kinds, sz: nat, newsz: nat,
                  c: seq<byte>)
    requires Filling(g, mem1, kind1, free1, sz, c) && sz <= newsz && Undone(mem1, kind1, mem, kind, g.root)
    requires free1 < 3 * (Pages(newsz) - Pages(sz)) && Pages(newsz) <= g.total
    ensures Made(g, mem, kind, sz) && !g.enough
  {
    ImageUndone(g, mem1, kind1, mem, kind, sz);
  }

  /** The addresses that uvmalloc could reach are unused. */
  lemma RoomAbove(g: Setting, mem: Memory, kind: Kinds, sz: nat, free: nat)
    requires Made(g, mem, kind, sz) && (free == 0 || Pages(sz) + free <= RAMPAGES)
    ensures IsRoot(kind, g.root) && Pages(sz) + free <= MAXVPN && Unused(mem, g.root, Pages(sz), free)
    ensures AllMapped(mem, kind, g.root, 0, Pages(sz), true) && Pages(sz) <= MAXVPN
  {
  }

  // ---- Writing into the image -----------------------------------------------------------------------

  /** walkaddr: the page that the process may use at v, or 0. */
  method Walkaddr(m: Machine, root: nat, v: nat) returns (pa: nat)
    requires m.Valid() && IsRoot(m.kind, root)
    modifies m
    ensures m.Valid() && m.mem == old(m.mem) && m.kind == old(m.kind) && m.free == old(m.free)
            && m.freelist == old(m.freelist)
    ensures pa == if v < MAXVPN && IsValid(Lookup(m.mem, root, v))
            && UserBit(Lookup(m.mem, root, v)) then Ppn(Lookup(m.mem, root, v)) else 0
  {
    if v >= MAXVPN { return 0; }
    var p := m.Walk(root, v, false);
    if p == 0 { return 0; }
    var pte := m.mem[p][v % 512];
    if !IsValid(pte) { return 0; }
    if !UserBit(pte) { return 0; }
    pa := Ppn(pte);
  }

  lemma UserWritten(mem: Memory, kind: Kinds, p: nat, page: seq<nat>)
    requires Inv(mem, kind) && p in kind && kind[p].User? && |page| == ENTRIES
    ensures Inv(mem[p := page], kind) && SameMaps(mem, mem[p := page], kind)
  {
    WritePage(mem, kind, false, p, page, kind[p]);
    assert kind[p := kind[p]] == kind;
  }

  lemma ImageWritten(g: Setting, mem: Memory, kind: Kinds, p: nat, page: seq<nat>, sz: nat)
    requires Made(g, mem, kind, sz) && p in kind && p in mem && kind[p].User? && kind[p].root == g.root
    requires SameMaps(mem, mem[p := page], kind)
    ensures Made(g, mem[p := page], kind, sz) && SameSpace(mem, mem[p := page], g.root)
  {
    var mem' := mem[p := page];
    assert SameSpace(mem, mem', g.root);
    BuiltMore(g.mem, g.kind, mem, kind, mem', kind, g.root);
  }

  /** Every page of the image is the process's own. */
  lemma PageAt(g: Setting, mem: Memory, kind: Kinds, sz: nat, v: nat)
    requires Inv(mem, kind) && Made(g, mem, kind, sz) && v < Pages(sz)
    ensures var pte := Lookup(mem, g.root, v); IsValid(pte) && Ppn(pte) in mem && IsUser(kind, Ppn(pte), g.root, v)
                                               && v < MAXVPN
    ensures Ppn(Lookup(mem, g.root, v)) != 0 && AllMapped(mem, kind, g.root, 0, Pages(sz), true) && Pages(sz) <= MAXVPN
  {
    NodeKind(mem, kind, g.root, v, 0);
    assert Lookup(mem, g.root, v) != 0;
  }

  /** memmove into the page at v, which walkaddr has found at pa. */
  method StoreBytes(m: Machine, v: nat, pa: nat, o: nat, d: seq<byte>, ghost g: Setting, ghost sz: nat,
                    ghost c: seq<byte>, ghost at: nat)
    requires Undoable(m, g, sz) && v < Pages(sz) && o + |d| <= PGSIZE && pa == Ppn(Lookup(m.mem, g.root, v))
    requires at == PGSIZE * v + o && Holds(m.mem, g.root, Pages(sz), c) && at + |d| <= |c|
    modifies m
    ensures Undoable(m, g, sz) && |m.free| == |old(m.free)| && SameSpace(old(m.mem), m.mem, g.root)
    ensures Holds(m.mem, g.root, Pages(sz), Splice(c, at, d))
  {
    ghost var mem0 := m.mem;
    PageAt(g, m.mem, m.kind, sz, v);
    var page := PutBytes(m.mem[pa], o, d);
    SetPage(m, pa, page, g.root, v);
    Stored(g, mem0, m.kind, sz, v, pa, o, d, page);
  }

  /** A process's page gets new contents. */
  method SetPage(m: Machine, pa: nat, page: seq<nat>, ghost root: nat, ghost v: nat)
    requires m.Valid() && pa in m.mem && IsUser(m.kind, pa, root, v) && |page| == ENTRIES
    modifies m`mem
    ensures m.Valid() && m.mem == old(m.mem)[pa := page] && SameMaps(old(m.mem), m.mem, m.kind)
  {
    UserWritten(m.mem, m.kind, pa, page);
    ChainKept(m.mem, m.mem[pa := page], m.kind, m.freelist, m.free, pa);
    m.mem := m.mem[pa := page];
  }

  lemma Stored(g: Setting, mem: Memory, kind: Kinds, sz: nat, v: nat, pa: nat, o: nat, d: seq<byte>, page: seq<nat>)
    requires Inv(mem, kind) && Made(g, mem, kind, sz) && v < Pages(sz) && o + |d| <= PGSIZE
             && pa == Ppn(Lookup(mem, g.root, v)) && pa in mem
    requires page == PutBytes(mem[pa], o, d) && SameMaps(mem, mem[pa := page], kind)
    ensures Made(g, mem[pa := page], kind, sz) && SameSpace(mem, mem[pa := page], g.root)
    ensures |Content(mem, g.root, Pages(sz))| == PGSIZE * Pages(sz)
    ensures Content(mem[pa := page], g.root, Pages(sz)) == Splice(Content(mem, g.root, Pages(sz)), PGSIZE * v + o, d)
  {
    PageAt(g, mem, kind, sz, v);
    ImageWritten(g, mem, kind, pa, page, sz);
    ContentStored(mem, kind, mem[pa := page], g.root, Pages(sz), v, o, d);
  }

  // ---- loadseg ----------------------------------------------------------------------------------------

  function Min(a: nat, b: nat): nat {
    if a < b then a else b
  }

  lemma ChunkFits(vaddr: nat, filesz: nat, sz: nat, i: nat)
    requires vaddr % PGSIZE == 0 && i % PGSIZE == 0 && vaddr + filesz <= sz && i < filesz
    ensures (vaddr + i) / PGSIZE < Pages(sz) && PGSIZE * ((vaddr + i) / PGSIZE) == vaddr + i
            && (i + PGSIZE) % PGSIZE == 0
  {
  }

  /** The segment's first n bytes are there. */
  ghost function Partly(c: seq<byte>, seg: Segment, n: nat): seq<byte>
    requires n <= |seg.data| && seg.vaddr + n <= |c|
  {
    Splice(c, seg.vaddr, seg.data[..n])
  }

  lemma PartlyNext(c: seq<byte>, seg: Segment, i: nat, n: nat)
    requires i + n <= |seg.data| && seg.vaddr + i + n <= |c|
    ensures Splice(Partly(c, seg, i), seg.vaddr + i, seg.data[i..i + n]) == Partly(c, seg, i + n)
  {
    SpliceMore(c, seg.vaddr, seg.data[..i], seg.data[i..i + n]);
    assert seg.data[..i] + seg.data[i..i + n] == seg.data[..i + n];
  }

  /** The first i bytes of the segment, or all of them, have been loaded. */
  ghost predicate LoadingSeg(m: Machine, g: Setting, sz: nat, c: seq<byte>, seg: Segment, i: nat)
    reads m
  {
    && i % PGSIZE == 0 && SegOk(seg, sz, c) && Min(i, seg.filesz) <= |seg.data|
    && Loading(m, g, sz, Partly(c, seg, Min(i, seg.filesz)))
  }

  ghost predicate SegOk(seg: Segment, sz: nat, c: seq<byte>) {
    seg.vaddr % PGSIZE == 0 && seg.vaddr + seg.filesz <= sz <= |c|
  }

  /** The n bytes from i on are the part of the segment that belongs into page v. */
  ghost predicate InPage(seg: Segment, sz: nat, c: seq<byte>, i: nat, n: nat, v: nat) {
    && i + n <= |seg.data| && seg.vaddr + i + n <= |c| && n <= PGSIZE
    && Min(i, seg.filesz) == i && Min(i + PGSIZE, seg.filesz) == i + n && (i + PGSIZE) % PGSIZE == 0
    && v < Pages(sz) && seg.vaddr + i == PGSIZE * v
    && Splice(Partly(c, seg, i), seg.vaddr + i, seg.data[i..i + n]) == Partly(c, seg, i + n)
  }

  lemma NextChunk(seg: Segment, sz: nat, c: seq<byte>, i: nat, n: nat, v: nat)
    requires SegOk(seg, sz, c) && i < seg.filesz && i % PGSIZE == 0
    requires n == Min(seg.filesz - i, PGSIZE) && i + n <= |seg.data| && v == (seg.vaddr + i) / PGSIZE
    ensures InPage(seg, sz, c, i, n, v)
  {
    ChunkFits(seg.vaddr, seg.filesz, sz, i);
    PartlyNext(c, seg, i, n);
  }

  /** One turn of loadseg's loop; its panic cannot happen. */
  method LoadPage(m: Machine, root: nat, seg: Segment, i: nat, ghost g: Setting, ghost sz: nat, ghost c: seq<byte>)
    returns (ok: bool)
    requires LoadingSeg(m, g, sz, c, seg, i) && i < seg.filesz && root == g.root
    modifies m
    ensures ok || seg.filesz > |seg.data|
    ensures if ok then LoadingSeg(m, g, sz, c, seg, i + PGSIZE) else Undoable(m, g, sz)
  {
    var n := Min(seg.filesz - i, PGSIZE);
    if i + n > |seg.data| { return false; }
    var v := (seg.vaddr + i) / PGSIZE;
    NextChunk(seg, sz, c, i, n, v);
    LoadFull(m, root, seg, i, n, v, g, sz, c);
    ok := true;
  }

  /** The file has the n bytes of this turn, which belong into page v. */
  method LoadFull(m: Machine, root: nat, seg: Segment, i: nat, n: nat, v: nat, ghost g: Setting, ghost sz: nat,
                  ghost c: seq<byte>)
    requires LoadingSeg(m, g, sz, c, seg, i) && i < seg.filesz && root == g.root
    requires InPage(seg, sz, c, i, n, v)
    modifies m
    ensures LoadingSeg(m, g, sz, c, seg, i + PGSIZE)
  {
    LoadInto(m, root, seg, i, n, v, g, sz, c);
  }

  method LoadInto(m: Machine, root: nat, seg: Segment, i: nat, n: nat, v: nat, ghost g: Setting, ghost sz: nat,
                  ghost c: seq<byte>)
    requires i + n <= |seg.data| && seg.vaddr + i + n <= |c| && Loading(m, g, sz, Partly(c, seg, i)) && root == g.root
    requires n <= PGSIZE && v < Pages(sz) && seg.vaddr + i == PGSIZE * v
    requires Splice(Partly(c, seg, i), seg.vaddr + i, seg.data[i..i + n]) == Partly(c, seg, i + n)
    modifies m
    ensures Loading(m, g, sz, Partly(c, seg, i + n))
  {
    LoadChunk(m, root, v, seg.data[i..i + n], g, sz, Partly(c, seg, i), seg.vaddr + i, Partly(c, seg, i + n));
  }

  /** walkaddr, which finds the page, and readi into it. */
  method LoadChunk(m: Machine, root: nat, v: nat, d: seq<byte>, ghost g: Setting, ghost sz: nat, ghost c: seq<byte>,
                   ghost at: nat, ghost c1: seq<byte>)
    requires Loading(m, g, sz, c) && root == g.root && v < Pages(sz) && |d| <= PGSIZE && at == PGSIZE * v
             && at + |d| <= |c| && c1 == Splice(c, at, d)
    modifies m
    ensures Loading(m, g, sz, c1)
  {
    PageAt(g, m.mem, m.kind, sz, v);
    ghost var mem1 := m.mem;
    var pa := Walkaddr(m, root, v);
    assert pa != 0;
    StoreBytes(m, v, pa, 0, d, g, sz, c, at);
    UserKept(mem1, m.mem, root, Pages(sz));
  }

  lemma UserKept(mem: Memory, mem': Memory, root: nat, n: nat)
    requires AllUser(mem, root, n) && SameSpace(mem, mem', root) && n <= MAXVPN
    ensures AllUser(mem', root, n)
  {
  }

  /** loadseg: the file's bytes over those of the image; it fails exactly when the file is too short. */
  method Loadseg(m: Machine, root: nat, seg: Segment, ghost g: Setting, ghost sz: nat, ghost c: seq<byte>)
    returns (ok: bool)
    requires Loading(m, g, sz, c) && root == g.root && SegOk(seg, sz, c)
    modifies m
    ensures ok <==> seg.filesz <= |seg.data|
    ensures if ok then Loading(m, g, sz, Splice(c, seg.vaddr, seg.data[..seg.filesz])) else Undoable(m, g, sz)
  {
    var i := 0;
    SpliceNone(c, seg.vaddr);
    assert seg.data[..0] == [];
    while i < seg.filesz
      invariant LoadingSeg(m, g, sz, c, seg, i)
      decreases seg.filesz - i
    {
      ok := LoadPage(m, root, seg, i, g, sz, c);
      if !ok { return; }
      i := i + PGSIZE;
    }
    ok := true;
  }

  /** A segment: its checks, uvmalloc and loadseg. */
  method LoadOne(m: Machine, root: nat, sz: nat, seg: Segment, ghost g: Setting, ghost l: Loaded, ghost r: Loaded)
    returns (ok: bool, sz1: nat)
    requires Loading(m, g, sz, l.bytes) && l.sz == sz && r == LoadSpec(l, seg) && root == g.root && HeaderOk(Load(seg))
    requires Pages(seg.vaddr + seg.memsz) <= g.total
    modifies m
    ensures if ok then sz1 == r.sz && Loading(m, g, sz1, r.bytes) else Undoable(m, g, sz1)
    ensures ok ==> !SegmentFails(l, seg)
    ensures !ok && g.enough ==> SegmentFails(l, seg)
  {
    if Refused(seg) {
      return false, sz;
    }
    sz1 := GrowImage(m, root, sz, seg.vaddr + seg.memsz, seg.xperm, g, l.bytes, 0);
    if sz1 == 0 {
      return false, sz;
    }
    LoadSpecIs(l, seg, sz1);
    ok := LoadGrown(m, root, seg, g, sz1, Extend(l.bytes, Pages(sz1)), r.bytes);
    WhetherFails(l, seg, sz1);
  }

  /** loadseg into an image that has grown; c1 is what it holds then. */
  method LoadGrown(m: Machine, root: nat, seg: Segment, ghost g: Setting, ghost sz: nat, ghost c: seq<byte>,
                   ghost c1: seq<byte>)
    returns (ok: bool)
    requires Loading(m, g, sz, c) && root == g.root && SegOk(seg, sz, c)
    requires seg.filesz <= |seg.data| ==> c1 == Splice(c, seg.vaddr, seg.data[..seg.filesz])
    modifies m
    ensures ok <==> seg.filesz <= |seg.data|
    ensures if ok then Loading(m, g, sz, c1) else Undoable(m, g, sz)
  {
    ok := Loadseg(m, root, seg, g, sz, c);
  }

  lemma WhetherFails(l: Loaded, seg: Segment, sz1: nat)
    requires !Refused(seg) && 0 < sz1 == Larger(seg.vaddr + seg.memsz, l.sz)
    ensures SegmentFails(l, seg) <==> seg.filesz > |seg.data|
  {
  }

  lemma LoadSpecIs(l: Loaded, seg: Segment, sz1: nat)
    requires sz1 == Larger(seg.vaddr + seg.memsz, l.sz) && !Refused(seg)
    ensures LoadSpec(l, seg).sz == sz1 && SegOk(seg, sz1, Extend(l.bytes, Pages(sz1)))
    ensures seg.filesz <= |seg.data| ==>
              LoadSpec(l, seg).bytes == Splice(Extend(l.bytes, Pages(sz1)), seg.vaddr, seg.data[..seg.filesz])
  {
    WholePages(sz1);
  }

  lemma WholePages(sz: nat)
    ensures sz <= PGSIZE * Pages(sz)
  {
  }

  /** The first i headers are dealt with. */
  ghost predicate LoadedTo(m: Machine, g: Setting, headers: seq<Header>, i: nat, sz: nat)
    requires i <= |headers|
    reads m
  {
    sz == LoadAllSpec(headers[..i]).sz && Loading(m, g, sz, LoadAllSpec(headers[..i]).bytes)
  }

  /** One turn of exec's loop over the program headers. */
  method LoadHeader(m: Machine, root: nat, headers: seq<Header>, i: nat, sz: nat, ghost g: Setting)
    returns (ok: bool, sz1: nat)
    requires i < |headers| && LoadedTo(m, g, headers, i, sz) && root == g.root && HeaderOk(headers[i])
    requires Pages(LoadAllSpec(headers).sz) <= g.total
    modifies m
    ensures if ok then LoadedTo(m, g, headers, i + 1, sz1) else Undoable(m, g, sz1)
    ensures ok ==> !HeaderFails(headers, i)
    ensures !ok && g.enough ==> HeaderFails(headers, i)
  {
    SpecNext(headers, i);
    ok, sz1 := headers[i] != Unreadable, sz;
    if headers[i].Load? {
      SegmentWithin(headers, i);
      ok, sz1 := LoadOne(m, root, sz, headers[i].segment, g, LoadAllSpec(headers[..i]), LoadAllSpec(headers[..i + 1]));
    }
  }

  /** That loop. */
  method LoadAll(m: Machine, root: nat, headers: seq<Header>, ghost g: Setting) returns (ok: bool, sz: nat)
    requires Loading(m, g, 0, []) && root == g.root && forall i :: 0 <= i < |headers| ==> HeaderOk(headers[i])
    requires Pages(LoadAllSpec(headers).sz) <= g.total
    modifies m
    ensures if ok then LoadedTo(m, g, headers, |headers|, sz) else Undoable(m, g, sz)
    ensures ok ==> !LoadFails(headers)
    ensures !ok && g.enough ==> LoadFails(headers)
  {
    ok, sz := true, 0;
    var i := 0;
    assert FineTo(headers, 0);
    while i < |headers|
      invariant i <= |headers| && ok && LoadedTo(m, g, headers, i, sz) && FineTo(headers, i)
    {
      ok, sz := LoadHeader(m, root, headers, i, sz, g);
      if !ok {
        SomeFails(headers, i);
        return;
      }
      FineNext(headers, i);
      i := i + 1;
    }
    AllFine(headers);
  }

  /** None of the first n headers fails. */
  ghost predicate FineTo(headers: seq<Header>, n: nat) {
    n <= |headers| && forall j {:trigger HeaderFails(headers, j)} :: 0 <= j < n ==> !HeaderFails(headers, j)
  }

  lemma FineNext(headers: seq<Header>, i: nat)
    requires FineTo(headers, i) && i < |headers| && !HeaderFails(headers, i)
    ensures FineTo(headers, i + 1)
  {
  }

  lemma AllFine(headers: seq<Header>)
    requires FineTo(headers, |headers|)
    ensures !LoadFails(headers)
  {
  }

  lemma SomeFails(headers: seq<Header>, i: nat)
    requires i < |headers|
    ensures HeaderFails(headers, i) ==> LoadFails(headers)
  {
  }

  lemma SpecNext(headers: seq<Header>, i: nat)
    requires i < |headers|
    ensures LoadAllSpec(headers[..i + 1])
         == if headers[i].Load? then LoadSpec(LoadAllSpec(headers[..i]), headers[i].segment)
           else LoadAllSpec(headers[..i])
  {
    assert headers[..i + 1][..i] == headers[..i];
  }

  /** The image is at least as large as each of its segments. */
  lemma SegmentWithin(headers: seq<Header>, i: nat)
    requires i < |headers| && headers[i].Load?
    ensures Pages(headers[i].segment.vaddr + headers[i].segment.memsz) <= Pages(LoadAllSpec(headers).sz)
  {
    SpecNext(headers, i);
    LoadGrows(headers, i + 1);
    PagesGrow(headers[i].segment.vaddr + headers[i].segment.memsz, LoadAllSpec(headers).sz);
  }

  // ---- The stack ----------------------------------------------------------------------------------

  /** *pte &= ~PTE_U changes neither the page behind the entry nor its owner. */
  lemma ClearUserBit(mem: Memory, kind: Kinds, p: nat, v: nat, pte: nat)
    requires MemOk(mem, kind) && p in kind && kind[p].Table? && pte == mem[p][v % 512] && IsValid(pte) && UserBit(pte)
             && Flags(pte) != 17
    ensures pte >= 16 && IsValid(pte - 16) && Flags(pte - 16) != 1 && Ppn(pte - 16) == Ppn(pte) && !UserBit(pte - 16)
    ensures LeafChange(mem, kind, kind, p, v, pte - 16)
  {
    WithoutUser(pte);
  }

  lemma GuardSet(g: Setting, mem1: Memory, mem: Memory, kind: Kinds, sz: nat)
    requires Image(g, mem1, kind, sz) && Pages(sz) >= 2 && mem.Keys == mem1.Keys && OldPages(mem1, mem, kind)
    requires var v := Pages(sz) - 2; var pte := Lookup(mem1, g.root, v);
             && pte > 16 && MapsSet(mem1, mem, kind, g.root, v, pte - 16) && Ppn(pte - 16) == Ppn(pte)
             && !UserBit(pte - 16)
    ensures Made(g, mem, kind, sz) && Guarded(mem, g.root, Pages(sz))
  {
    BuiltMore(g.mem, g.kind, mem1, kind, mem, kind, g.root);
  }

  lemma GuardContent(g: Setting, mem1: Memory, mem: Memory, kind: Kinds, sz: nat)
    requires MemOk(mem1, kind) && Made(g, mem1, kind, sz) && Pages(sz) >= 2 && OldPages(mem1, mem, kind)
    requires var v := Pages(sz) - 2; var pte := Lookup(mem1, g.root, v);
             pte > 16 && MapsSet(mem1, mem, kind, g.root, v, pte - 16) && Ppn(pte - 16) == Ppn(pte)
    ensures Content(mem, g.root, Pages(sz)) == Content(mem1, g.root, Pages(sz))
  {
    RoomAbove(g, mem1, kind, sz, 0);
    SameBehind(mem1, mem, kind, g.root, Pages(sz) - 2);
    ContentKept(mem1, kind, mem, g.root, Pages(sz));
  }

  lemma SameBehind(mem1: Memory, mem: Memory, kind: Kinds, root: nat, v: nat)
    requires IsRoot(kind, root) && OldPages(mem1, mem, kind)
    requires var pte := Lookup(mem1, root, v); pte > 16 && MapsSet(mem1, mem, kind, root, v, pte - 16)
                                               && Ppn(pte - 16) == Ppn(pte)
    ensures SamePpns(mem1, mem, root) && UsersKept(mem1, kind, mem, root)
  {
  }

  /** uvmclear of the page below the stack. */
  method Uvmclear(m: Machine, root: nat, ghost sz: nat, n: nat, ghost g: Setting, ghost c: seq<byte>)
    requires Loading(m, g, sz, c) && root == g.root && n == Pages(sz) >= 2 && Flags(Lookup(m.mem, root, n - 2)) == 23
    modifies m
    ensures Stacked(m, g, sz, c)
  {
    RoomAbove(g, m.mem, m.kind, sz, 0);
    ghost var mem1, kind1 := m.mem, m.kind;
    ClearPte(m, root, n - 2);
    Cleared(g, mem1, m.mem, kind1, sz, n - 2);
  }

  /** The entry of v has lost its PTE_U, and nothing else has changed. */
  ghost predicate NoUserAt(mem1: Memory, mem: Memory, kind: Kinds, root: nat, v: nat) {
    && mem.Keys == mem1.Keys && OldPages(mem1, mem, kind)
    && var pte := Lookup(mem1, root, v);
       pte > 16 && MapsSet(mem1, mem, kind, root, v, pte - 16) && Ppn(pte - 16) == Ppn(pte) && !UserBit(pte - 16)
  }

  lemma Cleared(g: Setting, mem1: Memory, mem: Memory, kind: Kinds, sz: nat, v: nat)
    requires MemOk(mem1, kind) && Image(g, mem1, kind, sz) && v + 2 == Pages(sz) && NoUserAt(mem1, mem, kind, g.root, v)
    ensures Made(g, mem, kind, sz) && Guarded(mem, g.root, Pages(sz))
            && Content(mem, g.root, Pages(sz)) == Content(mem1, g.root, Pages(sz))
  {
    GuardSet(g, mem1, mem, kind, sz);
    GuardContent(g, mem1, mem, kind, sz);
  }

  /** *pte &= ~PTE_U. */
  method ClearPte(m: Machine, root: nat, v: nat)
    requires m.Valid() && IsRoot(m.kind, root) && v < MAXVPN && Flags(Lookup(m.mem, root, v)) == 23
    modifies m
    ensures m.Valid() && m.kind == old(m.kind) && NoUserAt(old(m.mem), m.mem, m.kind, root, v)
  {
    NodeKind(m.mem, m.kind, root, v, 0);
    var p := m.Walk(root, v, false);
    var pte := m.mem[p][v % 512];
    Flags23(pte);
    ClearUserBit(m.mem, m.kind, p, v, pte);
    m.SetPte(p, v, pte - 16, m.kind);
  }

  lemma Flags23(pte: nat)
    requires Flags(pte) == 23
    ensures UserBit(pte) && IsValid(pte) && pte > 16
  {
    FlagsUser(pte);
    assert pte == Ppn(pte) * 1024 + 23;
    LeafPte(Ppn(pte), 23);
  }

  lemma Rounded(sz: nat)
    ensures var up := PGSIZE * Pages(sz); Pages(up) == Pages(sz) && Pages(up + 2 * PGSIZE) == Pages(sz) + 2
  {
  }

  /** PGROUNDUP of the size changes nothing. */
  lemma RoundedImage(g: Setting, mem: Memory, kind: Kinds, sz: nat)
    requires Image(g, mem, kind, sz)
    ensures var up := PGSIZE * Pages(sz);
            && Pages(up) == Pages(sz) && Pages(up + 2 * PGSIZE) == Pages(sz) + 2
            && Image(g, mem, kind, up) && Content(mem, g.root, Pages(up)) == Content(mem, g.root, Pages(sz))
  {
    Rounded(sz);
  }

  /** Two fresh pages above the segments, the lower one the guard. */
  method GrowStack(m: Machine, root: nat, sz0: nat, ghost g: Setting, ghost c: seq<byte>) returns (ok: bool, sz: nat)
    requires Loading(m, g, sz0, c) && root == g.root && Pages(sz0) + 2 <= g.total
    modifies m
    ensures if ok then sz == |c| + 2 * PGSIZE && |c| == PGSIZE * Pages(sz0)
            && Stacked(m, g, sz, c + ZeroBytes(PGSIZE) + ZeroBytes(PGSIZE))
            else Undoable(m, g, sz) && !g.enough
  {
    RoundedImage(g, m.mem, m.kind, sz0);
    sz := PGSIZE * Pages(sz0);
    ok, sz := AddStack(m, root, sz, Pages(sz0), g, c);
  }

  method AddStack(m: Machine, root: nat, up: nat, n: nat, ghost g: Setting, ghost c: seq<byte>)
    returns (ok: bool, sz: nat)
    requires Loading(m, g, up, c) && root == g.root && up == PGSIZE * n == |c| && Pages(up) == n
             && Pages(up + 2 * PGSIZE) == n + 2 <= g.total
    modifies m
    ensures if ok then sz == up + 2 * PGSIZE && Stacked(m, g, sz, c + ZeroBytes(PGSIZE) + ZeroBytes(PGSIZE))
            else Undoable(m, g, sz)
    ensures !ok ==> !g.enough
  {
    sz := GrowImage(m, root, up, up + 2 * PGSIZE, 4, g, c, n);
    if sz == 0 {
      return false, up;
    }
    ghost var c1 := Extend(c, n + 2);
    Uvmclear(m, root, sz, n + 2, g, c1);
    TwoPages(c, n + 2);
    ok := true;
  }

  lemma TwoPages(c: seq<byte>, n: nat)
    requires |c| + 2 * PGSIZE == PGSIZE * n
    ensures Extend(c, n) == c + ZeroBytes(PGSIZE) + ZeroBytes(PGSIZE)
  {
  }

  /** copyout to the stack page. */
  method CopyToStack(m: Machine, root: nat, sp: nat, src: seq<byte>, ghost g: Setting, ghost sz: nat,
                     ghost below: seq<byte>, ghost page: seq<byte>)
    requires Stacked(m, g, sz, below + page) && root == g.root && sz == |below| + PGSIZE && |page| == PGSIZE
             && sz % PGSIZE == 0
    requires |below| <= sp && sp + |src| <= sz && src != []
    modifies m
    ensures Stacked(m, g, sz, below + Splice(page, sp - |below|, src))
  {
    StackAt(sz, sp, below, page, src);
    StoreInStack(m, root, sp / PGSIZE, sp % PGSIZE, src, g, sz, below + page, sp);
  }

  method StoreInStack(m: Machine, root: nat, v: nat, o: nat, src: seq<byte>, ghost g: Setting, ghost sz: nat,
                      ghost c: seq<byte>, ghost at: nat)
    requires Stacked(m, g, sz, c) && root == g.root && v == Pages(sz) - 1 && o + |src| <= PGSIZE && at == PGSIZE * v + o
             && at + |src| <= |c|
    modifies m
    ensures Stacked(m, g, sz, Splice(c, at, src))
  {
    PageAt(g, m.mem, m.kind, sz, v);
    ghost var mem1 := m.mem;
    var pa := Walkaddr(m, root, v);
    assert pa != 0;
    StoreBytes(m, v, pa, o, src, g, sz, c, at);
    GuardKept(mem1, m.mem, root, Pages(sz));
  }

  lemma StackAt(sz: nat, sp: nat, below: seq<byte>, page: seq<byte>, src: seq<byte>)
    requires sz % PGSIZE == 0 && sz == |below| + PGSIZE && |page| == PGSIZE && |below| <= sp && sp + |src| <= sz
             && src != []
    ensures sp / PGSIZE == Pages(sz) - 1 && sp == PGSIZE * (sp / PGSIZE) + sp % PGSIZE && sp % PGSIZE + |src| <= PGSIZE
    ensures sp + |src| <= |below + page| && Splice(below + page, sp, src) == below + Splice(page, sp - |below|, src)
  {
    StackAddress(sz, sp, |below|);
    SpliceTail(below, page, sp - |below|, src);
  }

  lemma StackAddress(sz: nat, sp: nat, base: nat)
    requires sz % PGSIZE == 0 && sz == base + PGSIZE && base <= sp < sz
    ensures sp / PGSIZE == Pages(sz) - 1 && sp % PGSIZE == sp - base && sp == PGSIZE * (sp / PGSIZE) + sp % PGSIZE
  {
  }

  lemma GuardKept(mem: Memory, mem': Memory, root: nat, n: nat)
    requires Guarded(mem, root, n) && SameSpace(mem, mem', root) && n <= MAXVPN
    ensures Guarded(mem', root, n)
  {
  }

  /** Strings pushed: sp and ustack, and the page. */
  ghost predicate Pushing(m: Machine, g: Setting, sz: nat, below: seq<byte>, args: seq<seq<byte>>, n: nat, sp: int,
                          ustack: seq<nat>)
    reads m
  {
    && n <= |args| && Room(args[..n]) <= PGSIZE && sz == |below| + PGSIZE && sz % PGSIZE == 0
    && sp == sz - Room(args[..n]) && ustack == Pointers(args[..n], |below|)
    && Stacked(m, g, sz, below + Strings(args[..n]))
  }

  lemma PushNext(args: seq<seq<byte>>, n: nat, sz: nat, base: nat, sp0: int, sp: int)
    requires n < |args| && sz == base + PGSIZE && sz % PGSIZE == 0 && Room(args[..n]) <= PGSIZE
             && sp0 == sz - Room(args[..n])
    requires sp == Lower(sp0, |args[n]| + 1)
    ensures sp == sz - Room(args[..n + 1]) && (sp >= base <==> Room(args[..n + 1]) <= PGSIZE)
    ensures sp >= base ==> Pointers(args[..n + 1], base) == Pointers(args[..n], base) + [sp]
    ensures sp >= base ==> sp - base + |args[n] + [0]| <= PGSIZE
                           && Strings(args[..n + 1]) == Splice(Strings(args[..n]), sp - base, args[n] + [0])
  {
    RoomAligned(args[..n]);
    StackAligned(sz, Room(args[..n]));
    LowerIs(sp0, |args[n]| + 1);
    RoomNext(args, n);
    if Room(args[..n + 1]) <= PGSIZE {
      PointersNext(args, n, base);
      StringsNext(args, n);
    }
  }

  lemma StackAligned(sz: nat, room: nat)
    requires sz % PGSIZE == 0 && room % 16 == 0
    ensures (sz - room) % 16 == 0
  {
  }

  /** What it does for one more argument. */
  method PushOne(m: Machine, root: nat, sz: nat, sp0: int, args: seq<seq<byte>>, n: nat, ustack0: seq<nat>,
                 ghost g: Setting, ghost below: seq<byte>)
    returns (ok: bool, sp: int, ustack: seq<nat>)
    requires Pushing(m, g, sz, below, args, n, sp0, ustack0) && n < |args| && root == g.root
    modifies m
    ensures if ok then Pushing(m, g, sz, below, args, n + 1, sp, ustack) else !Fits(args) && Undoable(m, g, sz)
  {
    sp, ustack := Lower(sp0, |args[n]| + 1), ustack0;
    PushNext(args, n, sz, |below|, sp0, sp);
    if sp < sz - PGSIZE {
      RoomGrows(args, n + 1);
      return false, sp, ustack;
    }
    CopyToStack(m, root, sp, args[n] + [0], g, sz, below, Strings(args[..n]));
    ustack := ustack0 + [sp];
    ok := true;
  }

  lemma StartPushing(m: Machine, g: Setting, sz: nat, below: seq<byte>, args: seq<seq<byte>>)
    requires Stacked(m, g, sz, below + ZeroBytes(PGSIZE)) && sz == |below| + PGSIZE && sz % PGSIZE == 0
    ensures Pushing(m, g, sz, below, args, 0, sz, [])
  {
    NothingPushed(args, |below|);
  }

  /** exec's loop over the arguments. */
  method PushStrings(m: Machine, root: nat, sz: nat, args: seq<seq<byte>>, ghost g: Setting, ghost below: seq<byte>)
    returns (ok: bool, sp: int, ustack: seq<nat>)
    requires Stacked(m, g, sz, below + ZeroBytes(PGSIZE)) && root == g.root && sz == |below| + PGSIZE
             && sz % PGSIZE == 0 && |args| != MAXARG
    modifies m
    ensures if ok then Pushing(m, g, sz, below, args, |args|, sp, ustack) && |args| < MAXARG
            else !Fits(args) && Undoable(m, g, sz)
  {
    StartPushing(m, g, sz, below, args);
    var argc := 0;
    ok, sp, ustack := true, sz, [];
    while argc < |args|
      invariant argc <= |args| && argc <= MAXARG && Pushing(m, g, sz, below, args, argc, sp, ustack)
    {
      ok, sp, ustack := PushArg(m, root, sz, sp, args, argc, ustack, g, below);
      if !ok { return; }
      argc := argc + 1;
    }
  }

  /** One turn of that loop. */
  method PushArg(m: Machine, root: nat, sz: nat, sp0: int, args: seq<seq<byte>>, n: nat, ustack0: seq<nat>,
                 ghost g: Setting, ghost below: seq<byte>)
    returns (ok: bool, sp: int, ustack: seq<nat>)
    requires Pushing(m, g, sz, below, args, n, sp0, ustack0) && n < |args| && n <= MAXARG && root == g.root
    modifies m
    ensures if ok then Pushing(m, g, sz, below, args, n + 1, sp, ustack) && n < MAXARG
            else !Fits(args) && Undoable(m, g, sz)
  {
    if n >= MAXARG { return false, sp0, ustack0; }
    ok, sp, ustack := PushOne(m, root, sz, sp0, args, n, ustack0, g, below);
  }

  /** exec's argument stack: it fails exactly when the arguments do not fit. */
  method PushArgs(m: Machine, root: nat, sz: nat, args: seq<seq<byte>>, ghost g: Setting, ghost below: seq<byte>)
    returns (ok: bool, sp: int)
    requires Stacked(m, g, sz, below + ZeroBytes(PGSIZE)) && root == g.root && sz == |below| + PGSIZE
             && sz % PGSIZE == 0
    requires |args| != MAXARG
    modifies m
    ensures ok <==> Fits(args)
    ensures if ok then sp == sz - Total(args) && Stacked(m, g, sz, below + StackPage(args, |below|))
            else Undoable(m, g, sz)
  {
    var ustack;
    ok, sp, ustack := PushStrings(m, root, sz, args, g, below);
    if ok {
      ok, sp := PushArray(m, root, sz, sp, args, ustack, g, below);
    }
  }

  lemma NothingPushed(args: seq<seq<byte>>, base: nat)
    ensures Room(args[..0]) == 0 && Strings(args[..0]) == ZeroBytes(PGSIZE) && Pointers(args[..0], base) == []
  {
  }

  /** The array of pointers below the strings. */
  method PushArray(m: Machine, root: nat, sz: nat, sp0: int, args: seq<seq<byte>>, ustack: seq<nat>, ghost g: Setting,
                   ghost below: seq<byte>)
    returns (ok: bool, sp: int)
    requires Pushing(m, g, sz, below, args, |args|, sp0, ustack) && root == g.root && |args| < MAXARG
    modifies m
    ensures ok <==> Fits(args)
    ensures if ok then sp == sz - Total(args) && Stacked(m, g, sz, below + StackPage(args, |below|))
            else Undoable(m, g, sz)
  {
    assert args[..|args|] == args;
    RoomAligned(args);
    StackAligned(sz, Room(args));
    LowerIs(sp0, 8 * (|args| + 1));
    sp := Lower(sp0, 8 * (|args| + 1));
    if sp < sz - PGSIZE {
      return false, sp;
    }
    CopyToStack(m, root, sp, Words(ustack + [0]), g, sz, below, Strings(args));
    ok := true;
  }

  // ---- exec -----------------------------------------------------------------------------------------

  /** The old image's pages are free, the new image's pages were free, all others are as before. */
  ghost predicate Replaced(kind0: Kinds, kind: Kinds, oldroot: nat, root: nat) {
    && kind.Keys == kind0.Keys
    && forall p :: p in kind0 ==>
         if Of(kind0[p], oldroot) then kind[p] == Free
         else kind[p] == kind0[p] || (kind0[p] == Free && Of(kind[p], root))
  }

  /** An address space does not notice that another one has been built. */
  lemma SpaceKept(g: Setting, mem: Memory, kind: Kinds, r: nat, sz: nat)
    requires Space(g.mem, g.kind, r, sz, g.tf, g.tramp) && Built(g.mem, g.kind, mem, kind, g.root)
    requires Pinned(g.kind, g.tf) && Pinned(g.kind, g.tramp)
    ensures Space(mem, kind, r, sz, g.tf, g.tramp) && r != g.root
  {
    assert IsRoot(g.kind, r);
    assert SameSpace(g.mem, mem, r);
  }

  /** Nor that another one is torn down. */
  lemma SpaceStays(g: Setting, mem1: Memory, kind1: Kinds, mem: Memory, kind: Kinds, oldroot: nat, sz: nat)
    requires Made(g, mem1, kind1, sz) && Guarded(mem1, g.root, Pages(sz)) && oldroot != g.root
    requires Released(kind1, kind, oldroot) && OtherMaps(mem1, mem, kind1, oldroot)
    ensures Space(mem, kind, g.root, sz, g.tf, g.tramp) && Guarded(mem, g.root, Pages(sz))
            && SameSpace(mem1, mem, g.root)
    ensures Replaced(g.kind, kind, oldroot, g.root) && OtherMaps(g.mem, mem, g.kind, oldroot)
  {
    assert SameSpace(mem1, mem, g.root);
    forall r, v | IsRoot(g.kind, r) && r != oldroot && 0 <= v < MAXVPN
      ensures Lookup(mem, r, v) == Lookup(g.mem, r, v) {
      assert IsRoot(kind1, r);
    }
  }

  /** The process has the new image, which holds c, and the old one is gone. */
  ghost predicate Execed(m: Machine, mem0: Memory, kind0: Kinds, oldroot: nat, root: nat, sz: nat, tf: nat, tramp: nat,
                         c: seq<byte>)
    reads m
  {
    && m.Valid() && Space(m.mem, m.kind, root, sz, tf, tramp) && Guarded(m.mem, root, Pages(sz))
    && Holds(m.mem, root, Pages(sz), c)
    && Replaced(kind0, m.kind, oldroot, root) && OtherMaps(mem0, m.mem, kind0, oldroot)
  }

  /** exec after the ELF header has been accepted.  On success the image holds what the segments and the
      arguments say, with its stack guard, and the old one is gone; on failure not one page or
      translation differs.  It fails for a bad header, a file that is too short or arguments that do not fit, and
      else only if memory is short. */
  method ExecImage(m: Machine, oldroot: nat, oldsz: nat, tf: nat, tramp: nat, headers: seq<Header>,
                   args: seq<seq<byte>>)
    returns (root: nat, sz: nat, sp: int)
    requires m.Valid() && Space(m.mem, m.kind, oldroot, oldsz, tf, tramp) && Pinned(m.kind, tf) && Pinned(m.kind, tramp)
    requires |m.free| <= RAMPAGES && |args| != MAXARG && forall i :: 0 <= i < |headers| ==> HeaderOk(headers[i])
    modifies m
    ensures root == 0 ==> m.Valid() && Restored(old(m.mem), old(m.kind), m.mem, m.kind)
                          && ExecFails(headers, args, |old(m.free)|)
    ensures root != 0 ==> !LoadFails(headers) && Fits(args)
                          && Execed(m, old(m.mem), old(m.kind), oldroot, root, sz, tf, tramp,
                                               FinalImage(headers, args))
    ensures root != 0 ==> sz == |FinalImage(headers, args)| && sp == sz - Total(args)
  {
    ghost var mem0, kind0 := m.mem, m.kind;
    sz, sp := 0, 0;
    root := ProcPagetable(m, tf, tramp);
    if root == 0 { return; }
    ghost var total := Pages(LoadAllSpec(headers).sz) + 2;
    ghost var g := Setting(mem0, kind0, root, tf, tramp, total, !Short(|old(m.free)|, total));
    var ok: bool;
    ok, sz, sp := BuildImage(m, root, headers, args, g);
    if ok {
      Commit(m, oldroot, oldsz, g, sz, FinalImage(headers, args));
    } else {
      Bad(m, root, sz, g);
      root := 0;
    }
  }

  /** The segments and the stack. */
  method BuildImage(m: Machine, root: nat, headers: seq<Header>, args: seq<seq<byte>>, ghost g: Setting)
    returns (ok: bool, sz: nat, sp: int)
    requires m.Valid() && Made(g, m.mem, m.kind, 0) && root == g.root && |m.free| <= RAMPAGES
    requires g.total == Pages(LoadAllSpec(headers).sz) + 2 && (g.enough ==> 3 * g.total <= |m.free|)
    requires |args| != MAXARG && forall i :: 0 <= i < |headers| ==> HeaderOk(headers[i])
    modifies m
    ensures ok ==> !LoadFails(headers) && Fits(args)
    ensures ok ==> Stacked(m, g, sz, FinalImage(headers, args))
    ensures ok ==> sz == |FinalImage(headers, args)| && sp == sz - Total(args)
    ensures !ok ==> Undoable(m, g, sz)
    ensures !ok && g.enough && Fits(args) ==> LoadFails(headers)
  {
    sp := 0;
    assert Content(m.mem, root, 0) == [] && Pages(0) == 0;
    ok, sz := LoadAll(m, root, headers, g);
    if !ok { return; }
    assert headers[..|headers|] == headers;
    ok, sz, sp := BuildStack(m, root, sz, args, g, LoadAllSpec(headers).bytes);
  }

  method BuildStack(m: Machine, root: nat, sz0: nat, args: seq<seq<byte>>, ghost g: Setting, ghost c: seq<byte>)
    returns (ok: bool, sz: nat, sp: int)
    requires Loading(m, g, sz0, c) && root == g.root && |args| != MAXARG && Pages(sz0) + 2 <= g.total
    modifies m
    ensures if ok
            then Fits(args) && sz == |c| + 2 * PGSIZE && sp == sz - Total(args)
                 && Stacked(m, g, sz, c + ZeroBytes(PGSIZE) + StackPage(args, |c| + PGSIZE))
            else Undoable(m, g, sz) && (!Fits(args) || !g.enough)
  {
    sp := 0;
    ok, sz := GrowStack(m, root, sz0, g, c);
    if !ok { return; }
    SizeRounded(|c|, Pages(sz0));
    ok, sp := PushArgs(m, root, sz, args, g, c + ZeroBytes(PGSIZE));
  }

  lemma SizeRounded(n: nat, k: nat)
    requires n == PGSIZE * k
    ensures (n + 2 * PGSIZE) % PGSIZE == 0
  {
  }

  /** exec's way out. */
  method Bad(m: Machine, root: nat, sz: nat, ghost g: Setting)
    requires Undoable(m, g, sz) && root == g.root
    modifies m
    ensures m.Valid() && Restored(g.mem, g.kind, m.mem, m.kind)
  {
    ghost var mem1, kind1 := m.mem, m.kind;
    ProcFreepagetable(m, root, sz, g.tf, g.tramp);
    BuiltReleased(g.mem, g.kind, mem1, kind1, m.mem, m.kind, root);
  }

  /** Commit to the user image. */
  method Commit(m: Machine, oldroot: nat, oldsz: nat, ghost g: Setting, ghost sz: nat, ghost c: seq<byte>)
    requires Stacked(m, g, sz, c) && Space(g.mem, g.kind, oldroot, oldsz, g.tf, g.tramp)
    modifies m
    ensures Execed(m, g.mem, g.kind, oldroot, g.root, sz, g.tf, g.tramp, c)
  {
    ghost var mem1, kind1 := m.mem, m.kind;
    SpaceKept(g, mem1, kind1, oldroot, oldsz);
    ProcFreepagetable(m, oldroot, oldsz, g.tf, g.tramp);
    SpaceStays(g, mem1, kind1, m.mem, m.kind, oldroot, sz);
    ContentKept(mem1, kind1, m.mem, g.root, Pages(sz));
  }
}
