/** What the image that exec builds ought to hold, byte by byte, and what an address space does hold. */
module ExecSpec {
  import opened ArgStack
  import opened ByteString
  import opened PageBytes
  import opened PageTable
  import opened Vm

  /** Pages of RAM from KERNBASE to PHYSTOP. */
  const RAMPAGES: nat := 0x8000

  /** A program header that asks to be loaded.  `data` is the file from ph.off on. */
  datatype Segment = Segment(vaddr: nat, memsz: nat, filesz: nat, xperm: nat, data: seq<byte>)

  /** What reading the next program header gives. */
  datatype Header = Unreadable | NotLoaded | Load(segment: Segment)

  ghost predicate HeaderOk(h: Header) {
    h.Load? ==> h.segment.xperm in {0, 4, 8, 12}
  }

  // ---- What the image ought to hold ---------------------------------------------------------------

  /** An image of sz bytes; its last page counts in full. */
  datatype Loaded = Loaded(sz: nat, bytes: seq<byte>)

  /** Room for n pages, the new bytes zero. */
  function Extend(c: seq<byte>, n: nat): (r: seq<byte>)
    ensures |r| >= PGSIZE * n
  {
    if PGSIZE * n <= |c| then c else c + ZeroBytes(PGSIZE * n - |c|)
  }

  /** The image after one more segment: it grows, and the file's bytes go over what is there. */
  function LoadSpec(l: Loaded, seg: Segment): (r: Loaded) {
    var sz := if seg.vaddr + seg.memsz < l.sz then l.sz else seg.vaddr + seg.memsz;
    var c := Extend(l.bytes, Pages(sz));
    Loaded(sz, if seg.filesz <= |seg.data| && seg.vaddr + seg.filesz <= |c|
               then Splice(c, seg.vaddr, seg.data[..seg.filesz]) else c)
  }

  /** The segments of the headers, one after the other. */
  function LoadAllSpec(headers: seq<Header>): (r: Loaded) {
    if headers == [] then Loaded(0, [])
    else
      var l, h := LoadAllSpec(headers[..|headers| - 1]), headers[|headers| - 1];
      if h.Load? then LoadSpec(l, h.segment) else l
  }

  /** The finished image: the segments, the guard page, and the stack page with the arguments. */
  function FinalImage(headers: seq<Header>, args: seq<seq<byte>>): seq<byte>
    requires Fits(args)
  {
    var c := LoadAllSpec(headers).bytes;
    c + ZeroBytes(PGSIZE) + StackPage(args, |c| + PGSIZE)
  }

  // ---- When exec fails ------------------------------------------------------------------------------

  /** A segment that exec refuses, once l has been loaded; one that ends at address 0 leaves uvmalloc's result 0. */
  ghost predicate SegmentFails(l: Loaded, seg: Segment) {
    Refused(seg) || (l.sz == 0 && seg.vaddr + seg.memsz == 0) || |seg.data| < seg.filesz
  }

  /** exec's tests of a program header. */
  predicate Refused(seg: Segment) {
    seg.memsz < seg.filesz || seg.vaddr + seg.memsz >= 0x1_0000_0000_0000_0000 || seg.vaddr % PGSIZE != 0
  }

  ghost predicate HeaderFails(headers: seq<Header>, i: nat)
    requires i < |headers|
  {
    || headers[i] == Unreadable
    || (headers[i].Load? && SegmentFails(LoadAllSpec(headers[..i]), headers[i].segment))
  }

  ghost predicate LoadFails(headers: seq<Header>) {
    exists i {:trigger HeaderFails(headers, i)} :: 0 <= i < |headers| && HeaderFails(headers, i)
  }

  /** `room` free pages may not be enough for an image of n pages: five for the tables of an empty address space, and
      for each page itself and two tables. */
  ghost predicate Short(room: nat, n: nat) {
    room < 5 + 3 * n
  }

  /** The reasons for exec to fail. */
  ghost predicate ExecFails(headers: seq<Header>, args: seq<seq<byte>>, room: nat) {
    LoadFails(headers) || !Fits(args) || Short(room, Pages(LoadAllSpec(headers).sz) + 2)
  }

  /** Loading only grows the image. */
  lemma {:induction false} LoadGrows(headers: seq<Header>, i: nat)
    requires i <= |headers|
    ensures LoadAllSpec(headers[..i]).sz <= LoadAllSpec(headers).sz
    decreases |headers|
  {
    var n := |headers|;
    if i < n {
      LoadGrows(headers[..n - 1], i);
      assert headers[..n - 1][..i] == headers[..i];
    } else {
      assert headers[..n] == headers;
    }
  }

  lemma PointerFound(a: seq<byte>, args: seq<seq<byte>>, k: nat)
    requires Fits(args) && k <= |args| && |a| + PGSIZE <= 0x1_0000_0000_0000_0000
    ensures var c := a + StackPage(args, |a|);
            var at := |c| - Total(args) + 8 * k;
            && |c| == |a| + PGSIZE && 0 <= at && at + 8 <= |c|
            && FromBytes(c[at..at + 8]) == if k < |args| then |a| + Offset(args, k) else 0
  {
    ArrayRead(args, |a|, k);
    InStack(a, StackPage(args, |a|), PGSIZE - Total(args) + 8 * k, 8);
  }

  lemma StringFound(a: seq<byte>, args: seq<seq<byte>>, k: nat)
    requires Fits(args) && k < |args| && NoNul(args[k])
    ensures 0 <= Offset(args, k) <= PGSIZE
    ensures CString((a + StackPage(args, |a|))[|a| + Offset(args, k)..]) == args[k]
  {
    ArgumentRead(args, |a|, k);
    var page := StackPage(args, |a|);
    assert (a + page)[|a| + Offset(args, k)..] == page[Offset(args, k)..];
  }

  /** What a program with memory c and the given arguments finds: sp is aligned, from it on lie the addresses
      of the arguments and a null pointer, and at address k lies argument k as a C string. */
  ghost predicate Finds(c: seq<byte>, args: seq<seq<byte>>, k: nat)
    requires k <= |args|
  {
    var sp := |c| - Total(args);
    && PGSIZE <= |c| && 0 <= sp && sp % 16 == |c| % 16 && sp + 8 * k + 8 <= |c|
    && FromBytes(c[sp + 8 * k..sp + 8 * k + 8]) == (if k < |args| then |c| - PGSIZE + Offset(args, k) else 0)
    && (k < |args| && NoNul(args[k]) ==>
          0 <= Offset(args, k) <= PGSIZE && CString(c[|c| - PGSIZE + Offset(args, k)..]) == args[k])
  }

  lemma StackFinds(a: seq<byte>, args: seq<seq<byte>>, k: nat)
    requires Fits(args) && k <= |args| && |a| + PGSIZE <= 0x1_0000_0000_0000_0000
    ensures Finds(a + StackPage(args, |a|), args, k)
  {
    TotalAligned(args, |a| + PGSIZE);
    PointerFound(a, args, k);
    if k < |args| && NoNul(args[k]) {
      StringFound(a, args, k);
    }
  }

  /** Every program that exec starts finds its arguments. */
  lemma ProgramFinds(headers: seq<Header>, args: seq<seq<byte>>, k: nat)
    requires Fits(args) && k <= |args| && |FinalImage(headers, args)| <= 0x1_0000_0000_0000_0000
    ensures Finds(FinalImage(headers, args), args, k)
  {
    StackFinds(LoadAllSpec(headers).bytes + ZeroBytes(PGSIZE), args, k);
  }

  lemma InStack(a: seq<byte>, page: seq<byte>, o: nat, n: nat)
    requires o + n <= |page|
    ensures (a + page)[|a| + o..|a| + o + n] == page[o..o + n]
  {
  }

  // ---- What the image holds -----------------------------------------------------------------------

  ghost function PageOf(mem: Memory, root: nat, v: nat): seq<nat> {
    var p := Ppn(Lookup(mem, root, v));
    if p in mem then mem[p] else []
  }

  ghost function PagesOf(mem: Memory, root: nat, n: nat): (pages: seq<seq<nat>>) {
    seq(n, v requires v >= 0 => PageOf(mem, root, v))
  }

  /** The bytes of the first n pages. */
  ghost function Content(mem: Memory, root: nat, n: nat): (c: seq<byte>) {
    Flat(PagesOf(mem, root, n))
  }

  lemma OwnPages(mem: Memory, kind: Kinds, root: nat, n: nat)
    requires MemOk(mem, kind) && AllMapped(mem, kind, root, 0, n, true)
    ensures WholePages(PagesOf(mem, root, n)) && |Content(mem, root, n)| == PGSIZE * n
  {
    forall v | 0 <= v < n ensures |PagesOf(mem, root, n)[v]| == ENTRIES {
      OwnPage(mem, kind, root, v, n);
    }
    FlatSize(PagesOf(mem, root, n));
  }

  lemma OwnPage(mem: Memory, kind: Kinds, root: nat, v: nat, n: nat)
    requires MemOk(mem, kind) && AllMapped(mem, kind, root, 0, n, true) && v < n
    ensures var p := Ppn(Lookup(mem, root, v)); p in mem && IsUser(kind, p, root, v) && PageOf(mem, root, v) == mem[p]
                                                && |mem[p]| == ENTRIES
  {
    assert IsUser(kind, Ppn(Lookup(mem, root, v)), root, v);
  }

  /** The same pages behind every translation; the flags may differ. */
  ghost predicate SamePpns(mem: Memory, mem': Memory, root: nat) {
    forall w :: 0 <= w < MAXVPN ==> Ppn(Lookup(mem', root, w)) == Ppn(Lookup(mem, root, w))
  }

  /** The same translations. */
  ghost predicate SameSpace(mem: Memory, mem': Memory, root: nat) {
    forall w :: 0 <= w < MAXVPN ==> Lookup(mem', root, w) == Lookup(mem, root, w)
  }

  /** The pages of the address space hold what they held. */
  ghost predicate UsersKept(mem1: Memory, kind1: Kinds, mem: Memory, root: nat) {
    forall p :: p in kind1 && p in mem1 && kind1[p].User? && kind1[p].root == root ==> p in mem && mem[p] == mem1[p]
  }

  /** User pages keep their bytes through whatever keeps the pages behind the translations. */
  lemma ContentKept(mem1: Memory, kind1: Kinds, mem: Memory, root: nat, n: nat)
    requires MemOk(mem1, kind1) && AllMapped(mem1, kind1, root, 0, n, true) && n <= MAXVPN
    requires SamePpns(mem1, mem, root) && UsersKept(mem1, kind1, mem, root)
    ensures Content(mem, root, n) == Content(mem1, root, n)
  {
    forall v | 0 <= v < n ensures PagesOf(mem, root, n)[v] == PagesOf(mem1, root, n)[v] {
      OwnPage(mem1, kind1, root, v, n);
    }
    assert PagesOf(mem, root, n) == PagesOf(mem1, root, n);
  }

  /** uvmalloc adds zeros. */
  lemma ContentGrown(mem1: Memory, kind1: Kinds, mem: Memory, kind: Kinds, root: nat, lo: nat, hi: nat, xperm: nat)
    requires MemOk(mem1, kind1) && IsRoot(kind1, root) && AllMapped(mem1, kind1, root, 0, lo, true)
             && lo <= hi <= MAXVPN
    requires Grew(mem1, kind1, mem, kind, root, lo, hi - lo, WantZeros(hi, 19 + xperm))
    ensures Content(mem, root, hi) == Extend(Content(mem1, root, lo), hi)
  {
    var pages, blank := PagesOf(mem1, root, lo), seq(hi - lo, i => Zeros());
    forall v | 0 <= v < hi ensures PagesOf(mem, root, hi)[v] == (pages + blank)[v] {
      GrownPage(mem1, kind1, mem, kind, root, lo, hi, xperm, v);
    }
    assert PagesOf(mem, root, hi) == pages + blank;
    FlatJoin(pages, blank);
    FlatZeros(blank);
    OwnPages(mem1, kind1, root, lo);
  }

  lemma GrownPage(mem1: Memory, kind1: Kinds, mem: Memory, kind: Kinds, root: nat, lo: nat, hi: nat, xperm: nat, v: nat)
    requires MemOk(mem1, kind1) && IsRoot(kind1, root) && AllMapped(mem1, kind1, root, 0, lo, true)
             && lo <= hi <= MAXVPN && v < hi
    requires Grew(mem1, kind1, mem, kind, root, lo, hi - lo, WantZeros(hi, 19 + xperm))
    ensures PageOf(mem, root, v) == if v < lo then PageOf(mem1, root, v) else Zeros()
  {
    if v < lo {
      OwnPage(mem1, kind1, root, v, lo);
    } else {
      assert HasPage(mem, kind, root, v, WantZeros(hi, 19 + xperm)[v]);
    }
  }

  /** memmove into one page of the image. */
  lemma ContentStored(mem: Memory, kind: Kinds, mem': Memory, root: nat, n: nat, v: nat, o: nat, d: seq<byte>)
    requires MemOk(mem, kind) && AllMapped(mem, kind, root, 0, n, true) && v < n <= MAXVPN && o + |d| <= PGSIZE
    requires SameSpace(mem, mem', root)
    requires var p := Ppn(Lookup(mem, root, v)); p in mem && |mem[p]| == ENTRIES
                                                 && mem' == mem[p := PutBytes(mem[p], o, d)]
    ensures |Content(mem, root, n)| == PGSIZE * n && Content(mem', root, n)
            == Splice(Content(mem, root, n), PGSIZE * v + o, d)
  {
    OwnPages(mem, kind, root, n);
    StoredPages(mem, kind, mem', root, n, v, PutBytes(PageOf(mem, root, v), o, d));
    FlatPut(PagesOf(mem, root, n), v, o, d);
  }

  lemma StoredPages(mem: Memory, kind: Kinds, mem': Memory, root: nat, n: nat, v: nat, page: seq<nat>)
    requires MemOk(mem, kind) && AllMapped(mem, kind, root, 0, n, true) && v < n <= MAXVPN && SameSpace(mem, mem', root)
    requires mem' == mem[Ppn(Lookup(mem, root, v)) := page]
    ensures var pages := PagesOf(mem, root, n); PagesOf(mem', root, n) == pages[..v] + [page] + pages[v + 1..]
  {
    OwnPage(mem, kind, root, v, n);
    forall w | 0 <= w < n ensures PageOf(mem', root, w) == if w == v then page else PageOf(mem, root, w) {
      OwnPage(mem, kind, root, w, n);
    }
  }
}
