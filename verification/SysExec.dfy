/** sys_exec (kernel/sysfile.c): a page for every argument string, exec, and the pages back again, on every
way out.  What user memory holds at argv is a parameter. */
module SysExec {
  import opened AddressSpace
  import opened ArgStack
  import opened ByteString
  import opened Exec
  import opened ExecSpec
  import opened PageBytes
  import opened PageTable
  import opened Vm

  /** argv[i] in user memory: fetchaddr fails, a null pointer, fetchstr fails, or a string. */
  datatype Fetch = BadPointer | NoMore | BadString | Argument(str: seq<byte>)

  /** What fetchstr delivers: a string that fits into a page with its NUL. */
  ghost predicate FetchOk(f: Fetch) {
    f.Argument? ==> NoNul(f.str) && |f.str| < PGSIZE
  }

  /** The arguments before the first null pointer. */
  function Given(fetches: seq<Fetch>): (args: seq<seq<byte>>)
    ensures |args| <= |fetches|
  {
    if fetches == [] || !fetches[0].Argument? then [] else [fetches[0].str] + Given(fetches[1..])
  }

  /** The first n arguments are strings, and then comes a null pointer. */
  lemma {:induction false} GivenIs(fetches: seq<Fetch>, args: seq<seq<byte>>)
    requires |args| < |fetches| && fetches[|args|] == NoMore
    requires forall i :: 0 <= i < |args| ==> fetches[i] == Argument(args[i])
    ensures Given(fetches) == args
  {
    if args != [] {
      GivenIs(fetches[1..], args[1..]);
      assert args == [args[0]] + args[1..];
    }
  }

  lemma {:induction false} GivenLength(fetches: seq<Fetch>, n: nat)
    requires n <= |fetches| && forall i :: 0 <= i < n ==> fetches[i].Argument?
    ensures n <= |Given(fetches)|
    ensures n == |fetches| || !fetches[n].Argument? ==> n == |Given(fetches)|
  {
    if n > 0 {
      GivenLength(fetches[1..], n - 1);
    }
  }

  /** The user's array has a bad pointer, a bad string or no null pointer within its first MAXARG entries. */
  ghost predicate FetchFails(fetches: seq<Fetch>) {
    |Given(fetches)| == |fetches| || fetches[|Given(fetches)|] != NoMore
  }

  /** The reasons for sys_exec to fail before exec: every argument takes a page. */
  ghost predicate NotGathered(fetches: seq<Fetch>, room: nat) {
    FetchFails(fetches) || room < |Given(fetches)|
  }

  /** All the reasons for sys_exec to fail. */
  ghost predicate SysExecFails(fetches: seq<Fetch>, headers: seq<Header>, room: nat) {
    NotGathered(fetches, room) || ExecFails(headers, Given(fetches), room - |Given(fetches)|)
  }

  /** The page holds the string. */
  ghost predicate Fetched(mem: Memory, p: nat, str: seq<byte>) {
    p in mem && |mem[p]| == ENTRIES && CString(Words(mem[p])) == str
  }

  /** The pages hold the strings fetched so far. */
  ghost predicate AllFetched(mem: Memory, argv: seq<nat>, fetches: seq<Fetch>, n: nat) {
    n <= |fetches| && n <= |argv| && forall i :: 0 <= i < n ==>
                                                   fetches[i].Argument? && Fetched(mem, argv[i], fetches[i].str)
  }

  /** A turn of sys_exec's loop fails on a bad pointer or string, or because the first i arguments took all pages. */
  lemma CannotFetch(mem: Memory, argv: seq<nat>, fetches: seq<Fetch>, i: nat, room: nat)
    requires AllFetched(mem, argv, fetches, i) && i < |fetches| && fetches[i] != NoMore
    requires room <= i || !fetches[i].Argument?
    ensures NotGathered(fetches, room)
  {
    GivenLength(fetches, if fetches[i].Argument? then i + 1 else i);
  }

  lemma AllGiven(mem: Memory, argv: seq<nat>, fetches: seq<Fetch>, i: nat)
    requires AllFetched(mem, argv, fetches, i) && (i == |fetches| || fetches[i] == NoMore)
    ensures FetchFails(fetches) <==> i == |fetches|
    ensures |Given(fetches)| == i
  {
    GivenLength(fetches, i);
  }

  /** fetchstr into a page. */
  lemma FetchPage(page: seq<nat>, str: seq<byte>)
    requires |page| == ENTRIES && NoNul(str) && |str| < PGSIZE
    ensures CString(Words(PutBytes(page, 0, str + [0]))) == str
  {
    PutBytesWords(page, 0, str + [0]);
    CStringPut(Words(page), str);
  }

  /** The pages `argv` have been taken from the free ones; nothing else has changed hands. */
  ghost predicate Held(kind0: Kinds, kind: Kinds, argv: seq<nat>) {
    && kind.Keys == kind0.Keys
    && (forall i, j :: 0 <= i < j < |argv| ==> argv[i] != argv[j])
    && (forall p :: p in argv ==> p in kind0 && kind0[p] == Free && kind[p] == Other)
    && (forall p :: p in kind0 && p !in argv ==> kind[p] == kind0[p])
  }

  ghost predicate Holding(mem0: Memory, kind0: Kinds, mem: Memory, kind: Kinds, argv: seq<nat>) {
    Held(kind0, kind, argv) && SameMaps(mem0, mem, kind0) && OldPages(mem0, mem, kind0)
  }

  lemma HeldMore(kind0: Kinds, kind: Kinds, argv: seq<nat>, p: nat)
    requires Held(kind0, kind, argv) && p in kind && kind[p] == Free
    ensures p in kind0 && Held(kind0, kind[p := Other], argv + [p])
  {
  }

  /** The first k pages of argv are free again. */
  ghost predicate GivenBack(mem1: Memory, kind1: Kinds, mem: Memory, kind: Kinds, argv: seq<nat>, k: nat)
    requires k <= |argv|
  {
    && kind.Keys == kind1.Keys && mem.Keys == mem1.Keys
    && (forall p :: p in kind1 ==> kind[p] == if p in argv[..k] then Free else kind1[p])
    && (forall p :: p in mem1 && p !in argv ==> mem[p] == mem1[p])
    && SameMaps(mem1, mem, kind1)
  }

  /** Taking the argument pages and giving them back leaves no trace. */
  lemma HeldThenFreed(mem0: Memory, kind0: Kinds, mem1: Memory, kind1: Kinds, mem: Memory, kind: Kinds, argv: seq<nat>)
    requires Holding(mem0, kind0, mem1, kind1, argv) && GivenBack(mem1, kind1, mem, kind, argv, |argv|)
    ensures Restored(mem0, kind0, mem, kind)
  {
    assert argv[..|argv|] == argv;
    MapsTrans(mem0, mem1, mem, kind0, kind1);
  }

  /** exec runs in an address space that does not notice the argument pages. */
  lemma SpaceHeld(mem0: Memory, kind0: Kinds, mem: Memory, kind: Kinds, argv: seq<nat>, root: nat, sz: nat, tf: nat,
                  tramp: nat)
    requires Holding(mem0, kind0, mem, kind, argv) && Space(mem0, kind0, root, sz, tf, tramp)
    requires Pinned(kind0, tf) && Pinned(kind0, tramp)
    ensures Space(mem, kind, root, sz, tf, tramp) && Pinned(kind, tf) && Pinned(kind, tramp)
  {
    assert SameSpace(mem0, mem, root);
  }

  lemma SpaceFreed(mem2: Memory, kind2: Kinds, mem: Memory, kind: Kinds, argv: seq<nat>, root: nat, sz: nat, tf: nat,
                   tramp: nat)
    requires GivenBack(mem2, kind2, mem, kind, argv, |argv|)
             && forall p :: p in argv ==> p in kind2 && kind2[p] == Other
    requires MemOk(mem2, kind2) && Space(mem2, kind2, root, sz, tf, tramp) && Guarded(mem2, root, Pages(sz))
    ensures Space(mem, kind, root, sz, tf, tramp) && Guarded(mem, root, Pages(sz))
  {
    assert argv[..|argv|] == argv;
    assert SameSpace(mem2, mem, root);
  }

  lemma ContentFreed(mem2: Memory, kind2: Kinds, mem: Memory, kind: Kinds, argv: seq<nat>, root: nat, sz: nat, tf: nat,
                     tramp: nat)
    requires GivenBack(mem2, kind2, mem, kind, argv, |argv|)
             && forall p :: p in argv ==> p in kind2 && kind2[p] == Other
    requires MemOk(mem2, kind2) && Space(mem2, kind2, root, sz, tf, tramp)
    ensures Content(mem, root, Pages(sz)) == Content(mem2, root, Pages(sz))
  {
    assert SameSpace(mem2, mem, root);
    ContentKept(mem2, kind2, mem, root, Pages(sz));
  }

  /** After exec has replaced the image, the argument pages go back. */
  lemma ReplacedThenFreed(mem0: Memory, kind0: Kinds, mem1: Memory, kind1: Kinds, mem2: Memory, kind2: Kinds,
                          mem: Memory, kind: Kinds, argv: seq<nat>, oldroot: nat, root: nat, sz: nat, tf: nat,
                          tramp: nat)
    requires Holding(mem0, kind0, mem1, kind1, argv) && GivenBack(mem2, kind2, mem, kind, argv, |argv|)
    requires Replaced(kind1, kind2, oldroot, root) && OtherMaps(mem1, mem2, kind1, oldroot)
    requires MemOk(mem2, kind2) && Space(mem2, kind2, root, sz, tf, tramp) && Guarded(mem2, root, Pages(sz))
    ensures Space(mem, kind, root, sz, tf, tramp) && Guarded(mem, root, Pages(sz))
    ensures Replaced(kind0, kind, oldroot, root) && OtherMaps(mem0, mem, kind0, oldroot)
  {
    assert argv[..|argv|] == argv;
    SpaceFreed(mem2, kind2, mem, kind, argv, root, sz, tf, tramp);
    forall r, v | IsRoot(kind0, r) && r != oldroot && 0 <= v < MAXVPN ensures Lookup(mem, r, v) == Lookup(mem0, r, v) {
      assert r !in argv && IsRoot(kind1, r) && IsRoot(kind2, r);
    }
  }

  /** sys_exec has these pages, and in the first n of them the strings that it was given. */
  ghost predicate InHand(m: Machine, mem0: Memory, kind0: Kinds, argv: seq<nat>, room: nat, fetches: seq<Fetch>, n: nat)
    reads m
  {
    && m.Valid() && Holding(mem0, kind0, m.mem, m.kind, argv) && |m.free| + |argv| == room
    && AllFetched(m.mem, argv, fetches, n)
  }

  /** kalloc of one more page. */
  method TakePage(m: Machine, ghost argv: seq<nat>, ghost mem0: Memory, ghost kind0: Kinds, ghost room: nat,
                  ghost fetches: seq<Fetch>, ghost n: nat)
    returns (p: nat)
    requires InHand(m, mem0, kind0, argv, room, fetches, n)
    modifies m
    ensures InHand(m, mem0, kind0, if p == 0 then argv else argv + [p], room, fetches, n) && (p != 0 ==> p !in argv)
    ensures p == 0 ==> room == |argv|
  {
    ghost var mem1, kind1 := m.mem, m.kind;
    p := m.Kalloc();
    if p != 0 {
      HoldingMore(mem0, kind0, mem1, kind1, m.mem, argv, p);
      FetchedKept(mem1, m.mem, argv, argv + [p], fetches, n, p);
    }
  }

  lemma FetchedKept(mem1: Memory, mem: Memory, argv: seq<nat>, pages: seq<nat>, fetches: seq<Fetch>, n: nat, p: nat)
    requires AllFetched(mem1, argv, fetches, n) && argv <= pages && p !in argv[..n]
    requires mem.Keys == mem1.Keys && forall q :: q in mem && q != p ==> mem[q] == mem1[q]
    ensures AllFetched(mem, pages, fetches, n)
  {
    forall i | 0 <= i < n ensures fetches[i].Argument? && Fetched(mem, pages[i], fetches[i].str) {
      assert Fetched(mem1, argv[i], fetches[i].str) && argv[i] in argv[..n];
    }
  }

  /** fetchstr into the page just taken. */
  method FetchInto(m: Machine, p: nat, str: seq<byte>, ghost argv: seq<nat>, ghost mem0: Memory, ghost kind0: Kinds,
                   ghost room: nat, ghost fetches: seq<Fetch>, ghost n: nat)
    requires InHand(m, mem0, kind0, argv + [p], room, fetches, n) && |argv| == n < |fetches| && p !in argv
    requires fetches[n] == Argument(str) && FetchOk(fetches[n])
    modifies m
    ensures InHand(m, mem0, kind0, argv + [p], room, fetches, n + 1)
  {
    assert p in argv + [p];
    var page := PutBytes(m.mem[p], 0, str + [0]);
    HoldingFilled(mem0, kind0, m.mem, m.kind, argv + [p], p, page);
    FetchPage(m.mem[p], str);
    FetchedMore(m.mem, argv, p, fetches, n, str, page);
    m.Fill(p, page);
  }

  lemma FetchedMore(mem: Memory, argv: seq<nat>, p: nat, fetches: seq<Fetch>, n: nat, str: seq<byte>, page: seq<nat>)
    requires AllFetched(mem, argv + [p], fetches, n) && |argv| == n < |fetches| && p !in argv && p in mem
    requires fetches[n] == Argument(str) && |page| == ENTRIES && CString(Words(page)) == str
    ensures AllFetched(mem[p := page], argv + [p], fetches, n + 1)
  {
    assert (argv + [p])[..n] == argv;
    FetchedKept(mem, mem[p := page], argv + [p], argv + [p], fetches, n, p);
    assert Fetched(mem[p := page], (argv + [p])[n], str);
  }

  lemma HoldingMore(mem0: Memory, kind0: Kinds, mem1: Memory, kind1: Kinds, mem: Memory, argv: seq<nat>, p: nat)
    requires Holding(mem0, kind0, mem1, kind1, argv) && p in kind1 && kind1[p] == Free && SameMaps(mem1, mem, kind1)
    requires mem.Keys == mem1.Keys && forall q :: q in mem && q != p ==> mem[q] == mem1[q]
    ensures Holding(mem0, kind0, mem, kind1[p := Other], argv + [p])
  {
    HeldMore(kind0, kind1, argv, p);
    MapsTrans(mem0, mem1, mem, kind0, kind1);
  }

  lemma HoldingFilled(mem0: Memory, kind0: Kinds, mem: Memory, kind: Kinds, argv: seq<nat>, p: nat, page: seq<nat>)
    requires Inv(mem, kind) && Holding(mem0, kind0, mem, kind, argv) && p in argv && |page| == ENTRIES
    ensures Holding(mem0, kind0, mem[p := page], kind, argv)
  {
    WritePage(mem, kind, false, p, page, Other);
    MapsTrans(mem0, mem, mem[p := page], kind0, kind);
  }

  /** The loop of sys_exec over argv. */
  method FetchArgs(m: Machine, fetches: seq<Fetch>) returns (ok: bool, argv: seq<nat>)
    requires m.Valid() && |fetches| == MAXARG && forall i :: 0 <= i < MAXARG ==> FetchOk(fetches[i])
    modifies m
    ensures m.Valid() && Holding(old(m.mem), old(m.kind), m.mem, m.kind, argv) && |m.free| + |argv| == |old(m.free)|
    ensures ok ==> |argv| < MAXARG && fetches[|argv|] == NoMore && AllFetched(m.mem, argv, fetches, |argv|)
    ensures ok ==> !NotGathered(fetches, |old(m.free)|)
    ensures !ok ==> NotGathered(fetches, |old(m.free)|)
  {
    ghost var mem0, kind0, room := m.mem, m.kind, |m.free|;
    argv := [];
    var i := 0;
    while i < MAXARG && fetches[i] != NoMore
      invariant i <= MAXARG && |argv| == i && InHand(m, mem0, kind0, argv, room, fetches, i)
    {
      ok, argv := FetchOne(m, fetches, i, argv, mem0, kind0, room);
      if !ok { return; }
      i := i + 1;
    }
    AllGiven(m.mem, argv, fetches, i);
    ok := i < MAXARG;
  }

  /** One turn of that loop. */
  method FetchOne(m: Machine, fetches: seq<Fetch>, i: nat, argv: seq<nat>, ghost mem0: Memory, ghost kind0: Kinds,
                  ghost room: nat)
    returns (ok: bool, pages: seq<nat>)
    requires i < |fetches| && InHand(m, mem0, kind0, argv, room, fetches, i) && |argv| == i && fetches[i] != NoMore
             && FetchOk(fetches[i])
    modifies m
    ensures InHand(m, mem0, kind0, pages, room, fetches, if ok then i + 1 else i) && (ok ==> |pages| == i + 1)
    ensures !ok ==> NotGathered(fetches, room)
  {
    ok, pages := false, argv;
    if room <= i || !fetches[i].Argument? {
      CannotFetch(m.mem, argv, fetches, i, room);
    }
    if fetches[i] != BadPointer {
      var p := TakePage(m, argv, mem0, kind0, room, fetches, i);
      if p != 0 {
        pages := argv + [p];
        if fetches[i] != BadString {
          FetchInto(m, p, fetches[i].str, argv, mem0, kind0, room, fetches, i);
          ok := true;
        }
      }
    }
  }

  /** The argument strings, as exec finds them in the pages. */
  method ReadStrings(m: Machine, argv: seq<nat>, ghost fetches: seq<Fetch>) returns (args: seq<seq<byte>>)
    requires |argv| < |fetches| && fetches[|argv|] == NoMore && AllFetched(m.mem, argv, fetches, |argv|)
    ensures args == Given(fetches) && |args| == |argv|
  {
    args := [];
    while |args| < |argv|
      invariant |args| <= |argv| && forall i :: 0 <= i < |args| ==> fetches[i] == Argument(args[i])
    {
      assert Fetched(m.mem, argv[|args|], fetches[|args|].str);
      args := args + [CString(Words(m.mem[argv[|args|]]))];
    }
    GivenIs(fetches, args);
  }

  lemma BackMore(mem1: Memory, kind1: Kinds, mem: Memory, kind: Kinds, mem': Memory, argv: seq<nat>, k: nat)
    requires k < |argv| && GivenBack(mem1, kind1, mem, kind, argv, k) && argv[k] in kind1
    requires mem'.Keys == mem.Keys && (forall q :: q in mem' && q != argv[k] ==> mem'[q] == mem[q])
             && SameMaps(mem, mem', kind)
    requires forall p :: p in argv && p in kind1 ==> kind1[p] == Other
    ensures GivenBack(mem1, kind1, mem', kind[argv[k] := Free], argv, k + 1)
  {
    assert argv[..k + 1] == argv[..k] + [argv[k]];
    forall r | IsRoot(kind1, r) ensures IsRoot(kind, r) {
      assert r !in argv[..k];
    }
    MapsTrans(mem1, mem, mem', kind1, kind);
  }

  /** The loops that kfree the argument pages. */
  method FreeArgs(m: Machine, argv: seq<nat>)
    requires m.Valid() && (forall i, j :: 0 <= i < j < |argv| ==> argv[i] != argv[j])
    requires forall p :: p in argv ==> p in m.kind && m.kind[p] == Other
    modifies m
    ensures m.Valid() && GivenBack(old(m.mem), old(m.kind), m.mem, m.kind, argv, |argv|)
  {
    ghost var mem1, kind1 := m.mem, m.kind;
    var i := 0;
    while i < |argv|
      invariant i <= |argv| && m.Valid() && GivenBack(mem1, kind1, m.mem, m.kind, argv, i)
    {
      ghost var mem2, kind2 := m.mem, m.kind;
      assert argv[i] in argv && argv[i] !in argv[..i];
      m.Kfree(argv[i], false);
      BackMore(mem1, kind1, mem2, kind2, m.mem, argv, i);
      i := i + 1;
    }
  }

  /** sys_exec: on failure, wherever it happens, not one page or translation differs; on success the process
      has the new image, with the strings it was given as arguments, and exactly the old image's pages have
      been given back. */
  method RunSysExec(m: Machine, fetches: seq<Fetch>, oldroot: nat, oldsz: nat, tf: nat, tramp: nat,
                    headers: seq<Header>)
    returns (root: nat, sz: nat, sp: int)
    requires m.Valid() && Space(m.mem, m.kind, oldroot, oldsz, tf, tramp) && Pinned(m.kind, tf) && Pinned(m.kind, tramp)
    requires |m.free| <= RAMPAGES && |fetches| == MAXARG && forall i :: 0 <= i < MAXARG ==> FetchOk(fetches[i])
    requires forall i :: 0 <= i < |headers| ==> HeaderOk(headers[i])
    modifies m
    ensures root == 0 ==> m.Valid() && Restored(old(m.mem), old(m.kind), m.mem, m.kind)
    ensures root == 0 ==> SysExecFails(fetches, headers, |old(m.free)|)
    ensures root != 0 ==> !FetchFails(fetches) && !LoadFails(headers)
    ensures root != 0 ==> var args := Given(fetches);
                          && Fits(args) && sz == |FinalImage(headers, args)| && sp == sz - Total(args)
                          && Execed(m, old(m.mem), old(m.kind), oldroot, root, sz, tf, tramp, FinalImage(headers, args))
  {
    ghost var mem0, kind0 := m.mem, m.kind;
    var ok, argv := FetchArgs(m, fetches);
    if ok {
      var args := ReadStrings(m, argv, fetches);
      root, sz, sp := ExecThenFree(m, argv, oldroot, oldsz, tf, tramp, headers, args, mem0, kind0);
    } else {
      root, sz, sp := 0, 0, 0;
      ghost var mem1, kind1 := m.mem, m.kind;
      FreeArgs(m, argv);
      HeldThenFreed(mem0, kind0, mem1, kind1, m.mem, m.kind, argv);
    }
  }

  /** sys_exec once it has the arguments. */
  method ExecThenFree(m: Machine, argv: seq<nat>, oldroot: nat, oldsz: nat, tf: nat, tramp: nat, headers: seq<Header>,
                      args: seq<seq<byte>>, ghost mem0: Memory, ghost kind0: Kinds)
    returns (root: nat, sz: nat, sp: int)
    requires m.Valid() && Holding(mem0, kind0, m.mem, m.kind, argv) && Space(mem0, kind0, oldroot, oldsz, tf, tramp)
    requires Pinned(kind0, tf) && Pinned(kind0, tramp) && |m.free| <= RAMPAGES && |args| != MAXARG
    requires forall i :: 0 <= i < |headers| ==> HeaderOk(headers[i])
    modifies m
    ensures root == 0 ==> m.Valid() && Restored(mem0, kind0, m.mem, m.kind)
    ensures root == 0 ==> ExecFails(headers, args, |old(m.free)|)
    ensures root != 0 ==> !LoadFails(headers) && Fits(args)
    ensures root != 0 ==> sz == |FinalImage(headers, args)| && sp == sz - Total(args)
    ensures root != 0 ==> Execed(m, mem0, kind0, oldroot, root, sz, tf, tramp, FinalImage(headers, args))
  {
    ghost var mem1, kind1 := m.mem, m.kind;
    SpaceHeld(mem0, kind0, mem1, kind1, argv, oldroot, oldsz, tf, tramp);
    root, sz, sp := ExecImage(m, oldroot, oldsz, tf, tramp, headers, args);
    ghost var mem2, kind2 := m.mem, m.kind;
    StillHeld(kind0, kind1, kind2, argv, oldroot, root);
    FreeArgs(m, argv);
    if root != 0 {
      ReplacedThenFreed(mem0, kind0, mem1, kind1, mem2, kind2, m.mem, m.kind, argv, oldroot, root, sz, tf, tramp);
      ContentFreed(mem2, kind2, m.mem, m.kind, argv, root, sz, tf, tramp);
    } else {
      HoldingStill(mem0, kind0, mem1, kind1, mem2, argv);
      HeldThenFreed(mem0, kind0, mem2, kind2, m.mem, m.kind, argv);
    }
  }

  lemma StillHeld(kind0: Kinds, kind1: Kinds, kind2: Kinds, argv: seq<nat>, oldroot: nat, root: nat)
    requires Held(kind0, kind1, argv) && (kind2 == kind1 || Replaced(kind1, kind2, oldroot, root))
    ensures (forall i, j :: 0 <= i < j < |argv| ==> argv[i] != argv[j])
            && forall p :: p in argv ==> p in kind2 && kind2[p] == Other
  {
    forall p | p in argv ensures p in kind2 && kind2[p] == Other {
      assert p in kind1 && kind1[p] == Other;
    }
  }

  lemma HoldingStill(mem0: Memory, kind0: Kinds, mem1: Memory, kind: Kinds, mem2: Memory, argv: seq<nat>)
    requires Holding(mem0, kind0, mem1, kind, argv) && SameMaps(mem1, mem2, kind) && OldPages(mem1, mem2, kind)
    ensures Holding(mem0, kind0, mem2, kind, argv)
  {
    MapsTrans(mem0, mem1, mem2, kind0, kind);
    forall p | p in kind0 && p in mem0 && !kind0[p].Free? && !kind0[p].Table? ensures mem2[p] == mem0[p] {
      assert p !in argv && kind[p] == kind0[p];
    }
  }
}
