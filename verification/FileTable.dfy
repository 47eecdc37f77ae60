/** File references (kernel/file.c, kernel/sysfile.c, kernel/proc.c) and the life of a pipe (kernel/pipe.c).

A reference is a descriptor slot or a local variable of a system call.  fileclose drops a reference
under ftable.lock and closes the pipe end later, under the pipe's lock; in between the end is pending. */
module FileTable {
  const NOFILE: nat := 16
  const NFILE: nat := 100

  datatype Ref = Fd(proc: nat, fd: nat) | Local(proc: nat, k: nat)

  datatype End = End(pipe: nat, writable: bool)

  /** What a file is: nothing yet, one end of a pipe, or something that is not a pipe. */
  datatype Kind = Unset | PipeEnd(end: End) | Other

  /** Who keeps an end of a pipe open. */
  datatype Keeper = ByFile(f: nat) | Pending

  type Refs = map<Ref, nat>

  ghost function Held(refs: Refs, f: nat): set<Ref> {
    set r | r in refs && refs[r] == f
  }

  /** The descriptors below n of process p are in use. */
  ghost predicate FdsUsed(refs: Refs, p: nat, n: nat) {
    forall fd {:trigger Fd(p, fd)} :: 0 <= fd < n ==> Fd(p, fd) in refs
  }

  /** The reference count of a file is the number of its references. */
  ghost predicate Counted(ref: seq<nat>, refs: Refs) {
    && (forall r :: r in refs ==> refs[r] < |ref|)
    && (forall f {:trigger ref[f]} :: 0 <= f < |ref| ==> ref[f] == |Held(refs, f)|)
  }

  /** An end is open exactly as long as one file stands for it or its closing is pending. */
  ghost predicate Kept(ref: seq<nat>, kind: seq<Kind>, pending: set<End>, keeper: map<End, Keeper>) {
    && |kind| == |ref|
    && (forall f {:trigger kind[f]} :: 0 <= f < |kind| && kind[f] != Unset ==> ref[f] > 0)
    && (forall f {:trigger kind[f]} :: 0 <= f < |kind| && kind[f].PipeEnd? ==>
                                         kind[f].end in keeper && keeper[kind[f].end] == ByFile(f))
    && (forall e :: e in keeper && keeper[e].ByFile? ==> keeper[e].f < |kind| && kind[keeper[e].f] == PipeEnd(e))
    && (forall e :: e in keeper && keeper[e].Pending? ==> e in pending)
    && (forall e :: e in pending ==> e in keeper && keeper[e].Pending?)
  }

  /** The pages in use are those of the pipes with an open end. */
  ghost predicate Paged(keeper: map<End, Keeper>, pages: set<nat>) {
    && (forall e :: e in keeper ==> e.pipe in pages)
    && (forall p :: p in pages ==> End(p, false) in keeper || End(p, true) in keeper)
  }

  lemma NoEnds(keeper: map<End, Keeper>, pages: set<nat>, page: nat)
    requires Paged(keeper, pages) && page !in pages
    ensures End(page, false) !in keeper && End(page, true) !in keeper
  {
  }

  lemma NothingLeft(open: set<End>, pages: set<nat>, page: nat)
    requires End(page, false) !in open && End(page, true) !in open && page !in pages
    ensures open + {End(page, false), End(page, true)} - {End(page, false), End(page, true)} == open
    ensures pages + {page} - {page} == pages
  {
  }

  /** An end that was pending is closed; its page stays if the other end is open. */
  lemma EndClosed(ref: seq<nat>, kind: seq<Kind>, pending: set<End>, keeper: map<End, Keeper>, pages: set<nat>, e: End)
    requires Kept(ref, kind, pending, keeper) && Paged(keeper, pages) && e in pending
    ensures e in keeper && e.pipe in pages && e == (if e.writable then End(e.pipe, true) else End(e.pipe, false))
    ensures Kept(ref, kind, pending - {e}, keeper - {e})
    ensures Paged(keeper - {e}, if End(e.pipe, !e.writable) in keeper then pages else pages - {e.pipe})
  {
  }

  lemma HeldAdd(refs: Refs, r: Ref, f: nat, g: nat)
    requires r !in refs
    ensures |Held(refs[r := f], g)| == |Held(refs, g)| + if g == f then 1 else 0
  {
    if g == f {
      assert Held(refs[r := f], g) == Held(refs, g) + {r};
    } else {
      assert Held(refs[r := f], g) == Held(refs, g);
    }
  }

  lemma HeldDrop(refs: Refs, r: Ref, g: nat)
    requires r in refs
    ensures |Held(refs, g)| == |Held(refs - {r}, g)| + if g == refs[r] then 1 else 0
  {
    HeldAdd(refs - {r}, r, refs[r], g);
    assert (refs - {r})[r := refs[r]] == refs;
  }

  lemma AddRef(ref: seq<nat>, refs: Refs, r: Ref, f: nat)
    requires Counted(ref, refs) && f < |ref| && r !in refs
    ensures Counted(ref[f := ref[f] + 1], refs[r := f])
  {
    var ref', refs' := ref[f := ref[f] + 1], refs[r := f];
    forall g {:trigger ref'[g]} | 0 <= g < |ref'| ensures ref'[g] == |Held(refs', g)| {
      HeldAdd(refs, r, f, g);
      assert ref[g] == |Held(refs, g)|;
    }
  }

  lemma DropRef(ref: seq<nat>, refs: Refs, r: Ref)
    requires Counted(ref, refs) && r in refs
    ensures refs[r] < |ref| && ref[refs[r]] > 0 && Counted(ref[refs[r] := ref[refs[r]] - 1], refs - {r})
  {
    var f := refs[r];
    HeldDrop(refs, r, f);
    assert ref[f] == |Held(refs, f)|;
    var ref', refs' := ref[f := ref[f] - 1], refs - {r};
    forall g {:trigger ref'[g]} | 0 <= g < |ref'| ensures ref'[g] == |Held(refs', g)| {
      HeldDrop(refs, r, g);
      assert ref[g] == |Held(refs, g)|;
    }
  }

  /** Handing a reference from one place to another. */
  lemma MoveRef(ref: seq<nat>, refs: Refs, r: Ref, r': Ref)
    requires Counted(ref, refs) && r in refs && r' !in refs
    ensures Counted(ref, (refs - {r})[r' := refs[r]])
  {
    var f := refs[r];
    DropRef(ref, refs, r);
    var ref1 := ref[f := ref[f] - 1];
    AddRef(ref1, refs - {r}, r', f);
    assert ref1[f := ref1[f] + 1] == ref;
  }

  /** The end whose closing the last reference starts. */
  ghost function Ended(k: Kind, last: bool): set<End> {
    if last && k.PipeEnd? then {k.end} else {}
  }

  lemma LastRef(s: set<Ref>, r: Ref)
    requires r in s
    ensures |s| == 1 <==> s == {r}
  {
    if |s| == 1 {
      assert |s - {r}| == 0;
    }
  }

  /** r is the only reference to a file that is nothing yet. */
  ghost predicate Blank(refs: Refs, kind: seq<Kind>, r: Ref) {
    r in refs && refs[r] < |kind| && kind[refs[r]] == Unset && Held(refs, refs[r]) == {r}
  }

  ghost predicate Ready(refs: Refs, kind: seq<Kind>, r: Ref, e: End) {
    r in refs && refs[r] < |kind| && kind[refs[r]] == PipeEnd(e) && Held(refs, refs[r]) == {r}
  }

  /** When the reader has been closed, the writer still has its only reference. */
  lemma WriterLeft(refs: Refs, kind: seq<Kind>, r: Ref, w: Ref, page: nat)
    requires r != w && Ready(refs, kind, r, End(page, false)) && Ready(refs, kind, w, End(page, true))
    ensures refs[r] != refs[w] && Ready(refs - {r}, kind[refs[r] := Unset], w, End(page, true))
  {
    assert w in Held(refs, refs[w]) && Held(refs - {r}, refs[w]) == Held(refs, refs[w]) - {r};
  }

  /** Moving the only reference to one end, the other end keeps its own. */
  lemma Moved(refs: Refs, kind: seq<Kind>, from: Ref, to: Ref, other: Ref, e: End, e': End)
    requires Ready(refs, kind, from, e) && Ready(refs, kind, other, e') && to !in refs && from != other && e != e'
    ensures var refs' := (refs - {from})[to := refs[from]]; Ready(refs', kind, to, e) && Ready(refs', kind, other, e')
  {
    var refs', f, g := (refs - {from})[to := refs[from]], refs[from], refs[other];
    assert Held(refs', f) == Held(refs, f) - {from} + {to};
    assert other in Held(refs, g) && Held(refs', g) == Held(refs, g);
  }

  lemma RefsBack(refs: Refs, refs0: Refs, a: Ref, b: Ref)
    requires refs.Keys == refs0.Keys + {a, b} && a !in refs0 && b !in refs0
             && forall r :: r in refs0 ==> refs[r] == refs0[r]
    ensures refs - {a, b} == refs0
  {
  }

  lemma NotPending(ref: seq<nat>, kind: seq<Kind>, pending: set<End>, keeper: map<End, Keeper>, f: nat)
    requires Kept(ref, kind, pending, keeper) && f < |kind|
    ensures kind[f].PipeEnd? ==> kind[f].end !in pending
  {
  }

  /** A page belongs to a pipe as long as one of its ends is open, and no longer: once both ends are closed
      nothing refers to it, and a page in use is never handed out again. */
  lemma PipeLife(ref: seq<nat>, kind: seq<Kind>, refs: Refs, pending: set<End>, keeper: map<End, Keeper>,
                 pages: set<nat>, p: nat)
    requires Counted(ref, refs) && Kept(ref, kind, pending, keeper) && Paged(keeper, pages)
    ensures p in pages <==> exists w :: End(p, w) in pending
                                        || exists r :: r in refs && refs[r] < |kind|
                                                       && kind[refs[r]] == PipeEnd(End(p, w))
  {
    if p in pages {
      var w :| End(p, w) in keeper;
      if keeper[End(p, w)].ByFile? {
        var f := keeper[End(p, w)].f;
        assert kind[f] == PipeEnd(End(p, w)) && ref[f] == |Held(refs, f)|;
        var r :| r in Held(refs, f);
        assert r in refs && kind[refs[r]] == PipeEnd(End(p, w));
      }
    }
  }

  class Table {
    var ref: seq<nat>        // ftable.file[].ref
    var kind: seq<Kind>      // ftable.file[].type and what goes with it
    var refs: Refs           // the descriptors, and the system calls in progress
    var pending: set<End>
    var open: set<End>       // readopen and writeopen of every pipe
    ghost var keeper: map<End, Keeper>
    ghost var pages: set<nat>

    ghost predicate Valid()
      reads this
    {
      Counted(ref, refs) && Kept(ref, kind, pending, keeper) && Paged(keeper, pages) && open == keeper.Keys
    }

    /** fileinit: no file is in use. */
    constructor ()
      ensures Valid() && refs == map[] && pages == {} && open == {} && pending == {} && |ref| == NFILE
    {
      ref, kind, refs := seq(NFILE, i => 0), seq(NFILE, i => Unset), map[];
      pending, open, keeper, pages := {}, {}, map[], {};
      new;
      assert forall f :: Held(refs, f) == {};
    }

    /** filealloc: a file that nobody refers to. */
    method FileAlloc(r: Ref) returns (ok: bool)
      requires Valid() && r !in refs
      modifies this`ref, this`refs
      ensures Valid() && (!ok ==> refs == old(refs) && ref == old(ref)
                                  && forall f {:trigger ref[f]} :: 0 <= f < |ref| ==> ref[f] > 0)
      ensures ok ==> r in refs && refs[r] < |kind| && kind[refs[r]] == Unset && Held(refs, refs[r]) == {r}
                     && refs == old(refs)[r := refs[r]]
    {
      var f := 0;
      while f < |ref|
        invariant 0 <= f <= |ref| && ref == old(ref) && refs == old(refs)
        invariant forall g {:trigger ref[g]} :: 0 <= g < f ==> ref[g] > 0
      {
        if ref[f] == 0 {
          AddRef(ref, refs, r, f);
          assert Held(refs, f) == {} && Held(refs[r := f], f) == Held(refs, f) + {r};
          ref, refs := ref[f := 1], refs[r := f];
          return true;
        }
        f := f + 1;
      }
      return false;
    }

    /** sys_open: the file stands for an inode or a device. */
    method SetOther(r: Ref)
      requires Valid() && r in refs
      modifies this`kind
      ensures Valid() && refs[r] < |old(kind)|
      ensures kind == if old(kind)[refs[r]] == Unset then old(kind)[refs[r] := Other] else old(kind)
    {
      DropRef(ref, refs, r);
      if kind[refs[r]] == Unset {
        kind := kind[refs[r] := Other];
      }
    }

    /** filedup: its panic cannot happen, the reference that was found is counted. */
    method FileDup(from: Ref, r: Ref)
      requires Valid() && from in refs && r !in refs
      modifies this`ref, this`refs
      ensures Valid() && refs == old(refs)[r := old(refs)[from]]
    {
      var f := refs[from];
      DropRef(ref, refs, from);
      assert ref[f] >= 1;
      AddRef(ref, refs, r, f);
      ref, refs := ref[f := ref[f] + 1], refs[r := f];
    }

    /** fileclose, up to the release of ftable.lock: the last reference to a pipe end leaves it pending. */
    method FileClose(r: Ref)
      requires Valid() && r in refs
      modifies this`ref, this`refs, this`kind, this`pending, this`keeper
      ensures Valid() && refs == old(refs) - {r} && pages == old(pages) && open == old(open)
      ensures old(refs)[r] < |old(kind)| && pending == old(pending)
              + Ended(old(kind)[old(refs)[r]], Held(old(refs), old(refs)[r]) == {r})
      ensures kind == if Held(old(refs), old(refs)[r]) == {r} then old(kind)[old(refs)[r] := Unset] else old(kind)
    {
      var f := refs[r];
      DropRef(ref, refs, r);
      assert ref[f] == |Held(refs, f)|;
      LastRef(Held(refs, f), r);
      ref, refs := ref[f := ref[f] - 1], refs - {r};
      if ref[f] == 0 {
        var k := kind[f];
        kind := kind[f := Unset];
        if k.PipeEnd? {
          pending := pending + {k.end};
          keeper := keeper[k.end := Pending];
        }
      }
    }

    /** pipeclose: the page is freed exactly when the other end is closed already. */
    method PipeClose(e: End) returns (freed: bool)
      requires Valid() && e in pending
      modifies this`pending, this`open, this`keeper, this`pages
      ensures Valid() && e in old(open) && open == old(open) - {e} && pending == old(pending) - {e}
      ensures freed <==> End(e.pipe, !e.writable) !in open
      ensures e.pipe in old(pages) && pages == old(pages) - if freed then {e.pipe} else {}
    {
      EndClosed(ref, kind, pending, keeper, pages, e);
      pending := pending - {e};
      open := open - {e};
      keeper := keeper - {e};
      freed := End(e.pipe, false) !in open && End(e.pipe, true) !in open;
      if freed {
        pages := pages - {e.pipe};
      }
    }

    /** The part of pipealloc after its two files: both ends of a new pipe are open. */
    method SetUp(page: nat, r: Ref, w: Ref)
      requires Valid() && page !in pages && r in refs && w in refs && refs[r] != refs[w]
      requires refs[r] < |kind| && refs[w] < |kind| && kind[refs[r]] == Unset && kind[refs[w]] == Unset
      modifies this`kind, this`open, this`keeper, this`pages
      ensures Valid() && pages == old(pages) + {page} && open == old(open) + {End(page, false), End(page, true)}
      ensures kind == old(kind)[refs[r] := PipeEnd(End(page, false))][refs[w] := PipeEnd(End(page, true))]
    {
      DropRef(ref, refs, r);
      DropRef(ref, refs, w);
      var rd, wr := End(page, false), End(page, true);
      open := open + {rd, wr};
      ghost var f, g := refs[r], refs[w];
      kind := kind[refs[r] := PipeEnd(rd)][refs[w] := PipeEnd(wr)];
      keeper := keeper[rd := ByFile(f)][wr := ByFile(g)];
      pages := pages + {page};
    }

    /** pipealloc: two files and a page, or nothing.  page is what kalloc gives, 0 for none. */
    method PipeAlloc(p: nat, page: nat) returns (ok: bool)
      requires Valid() && page !in pages && Local(p, 0) !in refs && Local(p, 1) !in refs
      modifies this
      ensures Valid() && pending == old(pending)
      ensures !ok ==> refs == old(refs) && pages == old(pages) && open == old(open)
      ensures ok ==> refs.Keys == old(refs).Keys + {Local(p, 0), Local(p, 1)}
                     && (forall r :: r in old(refs) ==> refs[r] == old(refs)[r])
                     && pages == old(pages) + {page} && open == old(open) + {End(page, false), End(page, true)}
                     && Ready(refs, kind, Local(p, 0), End(page, false))
                     && Ready(refs, kind, Local(p, 1), End(page, true))
    {
      ok := TwoFiles(p);
      if !ok { return; }
      if page == 0 {
        TwoClosed(p, old(refs));
        return false;
      }
      SetUp(page, Local(p, 0), Local(p, 1));
    }

    /** Two files, or none. */
    method TwoFiles(p: nat) returns (ok: bool)
      requires Valid() && Local(p, 0) !in refs && Local(p, 1) !in refs
      modifies this`ref, this`refs, this`kind, this`pending, this`keeper
      ensures Valid() && pending == old(pending) && kind == old(kind)
      ensures !ok ==> refs == old(refs)
      ensures ok ==> Blank(refs, kind, Local(p, 0)) && Blank(refs, kind, Local(p, 1))
                     && refs == old(refs)[Local(p, 0) := refs[Local(p, 0)]][Local(p, 1) := refs[Local(p, 1)]]
    {
      ok := FileAlloc(Local(p, 0));
      if !ok { return; }
      ghost var f := refs[Local(p, 0)];
      ok := FileAlloc(Local(p, 1));
      if !ok {
        FileClose(Local(p, 0));
        assert refs == old(refs) && kind == old(kind);
        return;
      }
      assert Local(p, 0) in Held(refs, f) && Held(refs, refs[Local(p, 1)]) == {Local(p, 1)};
      assert Held(refs, f) == {Local(p, 0)};
    }

    /** fileclose of the two files that did not become a pipe. */
    method TwoClosed(p: nat, ghost refs0: Refs)
      requires Valid() && Local(p, 0) !in refs0 && Local(p, 1) !in refs0
      requires Blank(refs, kind, Local(p, 0)) && Blank(refs, kind, Local(p, 1))
      requires refs == refs0[Local(p, 0) := refs[Local(p, 0)]][Local(p, 1) := refs[Local(p, 1)]]
      modifies this`ref, this`refs, this`kind, this`pending, this`keeper
      ensures Valid() && pending == old(pending) && refs == refs0
    {
      FileClose(Local(p, 0));
      FileClose(Local(p, 1));
      assert refs == refs0;
    }

    /** fdalloc: the lowest free descriptor takes over the reference. */
    method FdAlloc(p: nat, from: Ref) returns (fd: int)
      requires Valid() && from in refs && from.Local?
      modifies this`refs
      ensures Valid() && fd < NOFILE
      ensures fd < 0 ==> refs == old(refs) && FdsUsed(old(refs), p, NOFILE)
      ensures fd >= 0 ==> Fd(p, fd) !in old(refs) && FdsUsed(old(refs), p, fd)
                          && refs == (old(refs) - {from})[Fd(p, fd) := old(refs)[from]]
    {
      fd := 0;
      while fd < NOFILE
        invariant 0 <= fd <= NOFILE && refs == old(refs) && FdsUsed(refs, p, fd)
      {
        if Fd(p, fd) !in refs {
          MoveRef(ref, refs, from, Fd(p, fd));
          refs := (refs - {from})[Fd(p, fd) := refs[from]];
          return;
        }
        fd := fd + 1;
      }
      fd := -1;
    }

    /** fileclose, with what it does after releasing ftable.lock. */
    method Close(r: Ref) returns (freed: bool)
      requires Valid() && r in refs
      modifies this
      ensures Valid() && refs == old(refs) - {r} && pending == old(pending) && old(refs)[r] < |old(kind)|
      ensures var k, last := old(kind)[old(refs)[r]], Held(old(refs), old(refs)[r]) == {r};
              && open == old(open) - Ended(k, last)
              && kind == (if last then old(kind)[old(refs)[r] := Unset] else old(kind))
              && (freed <==> last && k.PipeEnd? && End(k.end.pipe, !k.end.writable) !in open)
              && pages == old(pages) - if freed then {k.end.pipe} else {}
    {
      var f := refs[r];
      DropRef(ref, refs, r);
      assert ref[f] == |Held(refs, f)|;
      LastRef(Held(refs, f), r);
      var k := if ref[f] == 1 then kind[f] else Unset;
      ghost var pending0 := pending;
      NotPending(ref, kind, pending, keeper, f);
      FileClose(r);
      freed := false;
      if k.PipeEnd? {
        freed := PipeClose(k.end);
      }
    }

    /** Both ends of a pipe that only r and w refer to are closed: the page is free again. */
    method DropPipe(r: Ref, w: Ref, page: nat)
      requires Valid() && r != w && Ready(refs, kind, r, End(page, false)) && Ready(refs, kind, w, End(page, true))
      modifies this
      ensures Valid() && refs == old(refs) - {r, w} && pending == old(pending)
      ensures open == old(open) - {End(page, false), End(page, true)} && pages == old(pages) - {page}
    {
      assert End(page, true) in open && Held(refs, refs[r]) == {r} && Held(refs, refs[w]) == {w};
      WriterLeft(refs, kind, r, w, page);
      var freed := Close(r);
      freed := Close(w);
      assert refs == old(refs) - {r, w};
    }

    /** sys_pipe: two new descriptors for the two ends; or nothing has changed. */
    method SysPipe(p: nat, page: nat, copied: bool) returns (fd0: int, fd1: int)
      requires Valid() && page !in pages && Local(p, 0) !in refs && Local(p, 1) !in refs
      modifies this
      ensures Valid() && pending == old(pending) && (fd0 < 0 <==> fd1 < 0) && fd0 < NOFILE && fd1 < NOFILE
      ensures fd0 < 0 ==> refs == old(refs) && pages == old(pages) && open == old(open)
      ensures fd0 >= 0 ==>
                && fd0 != fd1 && Fd(p, fd0) !in old(refs) && Fd(p, fd1) !in old(refs)
                && FdsUsed(old(refs), p, fd0) && FdsUsed(refs, p, fd1)
                && refs.Keys == old(refs).Keys + {Fd(p, fd0), Fd(p, fd1)}
                && Ready(refs, kind, Fd(p, fd0), End(page, false)) && Ready(refs, kind, Fd(p, fd1), End(page, true))
                && pages == old(pages) + {page} && open == old(open) + {End(page, false), End(page, true)}
    {
      ghost var refs0, open0, pages0 := refs, open, pages;
      NoEnds(keeper, pages, page);
      var ok := PipeAlloc(p, page);
      if !ok { return -1, -1; }
      fd0, fd1 := Install(p, page, copied, refs0);
      NothingLeft(open0, pages0, page);
    }

    /** The rest of sys_pipe, once there is a pipe. */
    method Install(p: nat, page: nat, copied: bool, ghost refs0: Refs) returns (fd0: int, fd1: int)
      requires Valid() && Local(p, 0) !in refs0 && Local(p, 1) !in refs0
      requires refs.Keys == refs0.Keys + {Local(p, 0), Local(p, 1)} && forall r :: r in refs0 ==> refs[r] == refs0[r]
      requires Ready(refs, kind, Local(p, 0), End(page, false)) && Ready(refs, kind, Local(p, 1), End(page, true))
      modifies this
      ensures Valid() && pending == old(pending) && (fd0 < 0 <==> fd1 < 0) && fd0 < NOFILE && fd1 < NOFILE
      ensures fd0 < 0 ==> refs == refs0 && pages == old(pages) - {page}
                          && open == old(open) - {End(page, false), End(page, true)}
      ensures fd0 >= 0 ==>
                && fd0 != fd1 && Fd(p, fd0) !in refs0 && Fd(p, fd1) !in refs0
                && FdsUsed(refs0, p, fd0) && FdsUsed(refs, p, fd1)
                && refs.Keys == refs0.Keys + {Fd(p, fd0), Fd(p, fd1)}
                && Ready(refs, kind, Fd(p, fd0), End(page, false)) && Ready(refs, kind, Fd(p, fd1), End(page, true))
                && pages == old(pages) && open == old(open)
    {
      ghost var refs1 := refs;
      fd0 := FdAlloc(p, Local(p, 0));
      if fd0 < 0 {
        RefsBack(refs, refs0, Local(p, 0), Local(p, 1));
        DropPipe(Local(p, 0), Local(p, 1), page);
        return -1, -1;
      }
      Moved(refs1, kind, Local(p, 0), Fd(p, fd0), Local(p, 1), End(page, false), End(page, true));
      fd1 := InstallWriter(p, page, copied, fd0, refs0);
      if fd1 < 0 {
        fd0 := -1;
      }
    }

    /** The second descriptor of sys_pipe, and the copy to user memory. */
    method InstallWriter(p: nat, page: nat, copied: bool, fd0: nat, ghost refs0: Refs) returns (fd1: int)
      requires Valid() && Fd(p, fd0) !in refs0 && Local(p, 1) !in refs0
      requires refs.Keys == refs0.Keys + {Fd(p, fd0), Local(p, 1)} && forall r :: r in refs0 ==> refs[r] == refs0[r]
      requires Ready(refs, kind, Fd(p, fd0), End(page, false)) && Ready(refs, kind, Local(p, 1), End(page, true))
      modifies this
      ensures Valid() && pending == old(pending) && fd1 < NOFILE
      ensures fd1 < 0 ==> refs == refs0 && pages == old(pages) - {page}
                          && open == old(open) - {End(page, false), End(page, true)}
      ensures fd1 >= 0 ==>
                && fd0 != fd1 && Fd(p, fd1) !in refs0 && FdsUsed(refs, p, fd1)
                && refs.Keys == refs0.Keys + {Fd(p, fd0), Fd(p, fd1)}
                && Ready(refs, kind, Fd(p, fd0), End(page, false)) && Ready(refs, kind, Fd(p, fd1), End(page, true))
                && pages == old(pages) && open == old(open)
    {
      ghost var refs1 := refs;
      fd1 := FdAlloc(p, Local(p, 1));
      if fd1 < 0 {
        RefsBack(refs, refs0, Fd(p, fd0), Local(p, 1));
        DropPipe(Fd(p, fd0), Local(p, 1), page);
        return -1;
      }
      Moved(refs1, kind, Local(p, 1), Fd(p, fd1), Fd(p, fd0), End(page, true), End(page, false));
      if !copied {
        RefsBack(refs, refs0, Fd(p, fd0), Fd(p, fd1));
        DropPipe(Fd(p, fd0), Fd(p, fd1), page);
        return -1;
      }
    }

    /** argfd: the descriptor is one of the process's open files. */
    predicate IsOpen(p: nat, fd: int)
      reads this
    {
      0 <= fd < NOFILE && Fd(p, fd) in refs
    }

    /** sys_dup: the lowest free descriptor for the same file. */
    method SysDup(p: nat, fd: int) returns (fd': int)
      requires Valid()
      modifies this
      ensures Valid() && fd' < NOFILE && pages == old(pages) && open == old(open) && pending == old(pending)
      ensures fd' < 0 <==> !old(IsOpen(p, fd)) || FdsUsed(old(refs), p, NOFILE)
      ensures fd' < 0 ==> refs == old(refs)
      ensures fd' >= 0 ==> Fd(p, fd') !in old(refs) && FdsUsed(old(refs), p, fd')
                           && refs == old(refs)[Fd(p, fd') := old(refs)[Fd(p, fd)]]
    {
      if !IsOpen(p, fd) { return -1; }
      fd' := 0;
      while fd' < NOFILE
        invariant 0 <= fd' <= NOFILE && Valid() && refs == old(refs) && pages == old(pages) && open == old(open)
                  && pending == old(pending) && FdsUsed(refs, p, fd')
      {
        if Fd(p, fd') !in refs {
          FileDup(Fd(p, fd), Fd(p, fd'));
          return;
        }
        fd' := fd' + 1;
      }
      fd' := -1;
    }

    /** sys_close. */
    method SysClose(p: nat, fd: int) returns (ret: int)
      requires Valid()
      modifies this
      ensures Valid() && pending == old(pending) && ret == if old(IsOpen(p, fd)) then 0 else -1
      ensures ret < 0 ==> refs == old(refs) && pages == old(pages) && open == old(open) && kind == old(kind)
      ensures ret == 0 ==> refs == old(refs) - {Fd(p, fd)} && old(refs)[Fd(p, fd)] < |old(kind)|
      ensures ret == 0 ==> open == old(open) - Ended(old(kind)[old(refs)[Fd(p, fd)]],
                                                     Held(old(refs), old(refs)[Fd(p, fd)]) == {Fd(p, fd)})
      ensures ret == 0 ==>
                var k := old(kind)[old(refs)[Fd(p, fd)]];
                var ended := Held(old(refs), old(refs)[Fd(p, fd)]) == {Fd(p, fd)} && k.PipeEnd?;
                pages == old(pages) - if ended && End(k.end.pipe, !k.end.writable) !in open then {k.end.pipe} else {}
    {
      if !IsOpen(p, fd) { return -1; }
      var freed := Close(Fd(p, fd));
      ret := 0;
    }

    /** fork: the child q gets a reference for every descriptor of p. */
    method Fork(p: nat, q: nat)
      requires Valid() && p != q && forall fd :: Fd(q, fd) !in refs
      modifies this`ref, this`refs
      ensures Valid() && pages == old(pages) && open == old(open)
      ensures forall r :: r in old(refs) ==> r in refs && refs[r] == old(refs)[r]
      ensures forall fd {:trigger Fd(q, fd)} :: 0 <= fd < NOFILE ==>
                                                  (Fd(q, fd) in refs <==> Fd(p, fd) in refs)
                                                  && (Fd(q, fd) in refs ==> refs[Fd(q, fd)] == refs[Fd(p, fd)])
    {
      var i := 0;
      while i < NOFILE
        invariant 0 <= i <= NOFILE && Valid()
        invariant forall r :: r in old(refs) ==> r in refs && refs[r] == old(refs)[r]
        invariant forall r :: r in refs && r !in old(refs) ==> r.Fd? && r.proc == q && 0 <= r.fd < i
        invariant forall fd {:trigger Fd(q, fd)} ::
                  0 <= fd < i ==> (Fd(q, fd) in refs <==> Fd(p, fd) in refs)
                                  && (Fd(q, fd) in refs ==> refs[Fd(q, fd)] == refs[Fd(p, fd)])
      {
        if Fd(p, i) in refs {
          FileDup(Fd(p, i), Fd(q, i));
        }
        i := i + 1;
      }
    }

    /** The loop of exit: every descriptor is closed. */
    method Exit(p: nat)
      requires Valid()
      modifies this
      ensures Valid() && pending == old(pending) && pages <= old(pages) && open <= old(open)
      ensures forall r :: r in refs <==> r in old(refs) && !(r.Fd? && r.proc == p && r.fd < NOFILE)
    {
      var i := 0;
      while i < NOFILE
        invariant 0 <= i <= NOFILE && Valid() && pending == old(pending) && pages <= old(pages) && open <= old(open)
        invariant forall r :: r in refs <==> r in old(refs) && !(r.Fd? && r.proc == p && r.fd < i)
      {
        if Fd(p, i) in refs {
          var freed := Close(Fd(p, i));
        }
        i := i + 1;
      }
    }
  }

  // ---- Interleavings ----------------------------------------------------------------------------------

  /** What a process does in one go: under ftable.lock, under the lock of a pipe, with a file that only it knows, or
      with its own descriptors.  System calls are made of these, and those of different processes mix. */
  datatype Section =
    | Alloc(r: Ref)                             // filealloc
    | Open(r: Ref)                              // sys_open fills in the file
    | MakePipe(page: nat, r: Ref, w: Ref)       // pipealloc fills in the two files
    | Dup(from: Ref, r: Ref)                    // filedup, in dup and fork
    | Move(p: nat, from: Ref)                   // fdalloc
    | Drop(r: Ref)                              // fileclose, up to the release of ftable.lock
    | CloseEnd(e: End)                          // pipeclose

  /** One of them; one that is not possible is passed over. */
  method Do(t: Table, s: Section)
    requires t.Valid()
    modifies t
    ensures t.Valid()
  {
    match s {
      case Alloc(r) => if r !in t.refs { var ok := t.FileAlloc(r); }
      case Open(r) => if r in t.refs { t.SetOther(r); }
      case MakePipe(page, r, w) => TryPipe(t, page, r, w);
      case Dup(from, r) => if from in t.refs && r !in t.refs { t.FileDup(from, r); }
      case Move(p, from) => if from in t.refs && from.Local? { var fd := t.FdAlloc(p, from); }
      case Drop(r) => if r in t.refs { t.FileClose(r); }
      case CloseEnd(e) => if e in t.pending { var freed := t.PipeClose(e); }
    }
  }

  method TryPipe(t: Table, page: nat, r: Ref, w: Ref)
    requires t.Valid()
    modifies t
    ensures t.Valid()
  {
    if End(page, false) !in t.open && End(page, true) !in t.open && r in t.refs && w in t.refs {
      if t.refs[r] != t.refs[w] && t.kind[t.refs[r]] == Unset && t.kind[t.refs[w]] == Unset {
        t.SetUp(page, r, w);
      }
    }
  }

  /** Every interleaving: each count is the number of references at every point, and a page is in use exactly as long
      as a file stands for one of its ends or the closing of one is pending. */
  method Run(sections: seq<Section>) returns (t: Table)
    ensures fresh(t) && t.Valid() && forall f {:trigger t.ref[f]} :: 0 <= f < |t.ref| ==> t.ref[f] == |Held(t.refs, f)|
    ensures forall p {:trigger p in t.pages} ::
              p in t.pages <==> exists w :: End(p, w) in t.pending
                                            || exists r :: r in t.refs && t.refs[r] < |t.kind|
                                                           && t.kind[t.refs[r]] == PipeEnd(End(p, w))
  {
    t := new Table();
    var i := 0;
    while i < |sections|
      invariant fresh(t) && i <= |sections| && t.Valid()
    {
      Do(t, sections[i]);
      i := i + 1;
    }
    forall p ensures p in t.pages <==> exists w :: End(p, w) in t.pending
                                            || exists r :: r in t.refs && t.refs[r] < |t.kind|
                                                           && t.kind[t.refs[r]] == PipeEnd(End(p, w)) {
      PipeLife(t.ref, t.kind, t.refs, t.pending, t.keeper, t.pages, p);
    }
  }
}
