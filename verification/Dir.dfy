/** Directory operations and path names (kernel/fs.c), on top of readi and writei. */
module Dir {
  import opened ByteString
  import opened DiskBytes
  import opened FsSpec
  import opened DirSpec
  import F = Fs

  const T_DIR: nat := 1
  const ROOTINO: nat := 1

  /** namecmp: strncmp over DIRSIZ bytes says equal exactly when the name, padded, is what is stored. */
  method Namecmp(name: Name, field: Name) returns (same: bool)
    requires NoZero(name) && |field| == DIRSIZ && Canonical(field)
    ensures same <==> Pad(name) == field
  {
    var i := 0;
    while i < DIRSIZ && i < |name| && name[i] == field[i]
      invariant 0 <= i <= DIRSIZ && i <= |name| && forall j :: 0 <= j < i ==> name[j] == field[j]
    {
      i := i + 1;
    }
    if i == DIRSIZ {
      assert Pad(name) == field;
      return true;
    }
    same := (if i < |name| then name[i] else 0) == field[i];
    assert Pad(name)[i] == if i < |name| then name[i] else 0;
    if same {
      assert forall j :: i <= j < DIRSIZ ==> Pad(name)[j] == 0 == field[j];
    }
  }

  /** Nothing has happened to the file system. */
  twostate predicate Same(fs: F.Fs)
    reads fs
  {
    && fs.Valid() && fs.blocks == old(fs.blocks) && fs.inodes == old(fs.inodes) && fs.dinodes == old(fs.dinodes)
    && fs.ptr == old(fs.ptr) && fs.logged == old(fs.logged)
  }

  /** d is the contents of directory dp. */
  ghost predicate Is(fs: F.Fs, dp: nat, d: seq<byte>)
    reads fs
  {
    fs.Valid() && dp < fs.lay.ninodes && d == fs.File(dp) && |d| == fs.inodes[dp].size && DirSize(d)
  }

  /** The entry at an offset below the size is wholly below the size, which is that of a file. */
  lemma EntrySpan(lay: Superblock, blocks: seq<ByteBlock>, ino: Inode, ptr: Ptrs, i: nat, d: seq<byte>, k: nat)
    requires BlocksOk(lay, blocks) && Represents(lay, blocks, ino, ptr, i) && |d| == ino.size && DirSize(d)
             && DIRENT * k < |d|
    ensures k < Count(d) && DIRENT * k + DIRENT <= |d| < 0x8000_0000
    ensures Entry(d, k) == d[DIRENT * k..DIRENT * k + DIRENT]
  {
  }

  /** readi of entry k; its length panic cannot happen. */
  method ReadEntry(fs: F.Fs, dp: nat, off: nat, ghost k: nat, ghost d: seq<byte>) returns (e: seq<byte>)
    requires Is(fs, dp, d) && off == DIRENT * k && off < |d|
    modifies fs
    ensures Same(fs) && Is(fs, dp, d) && k < Count(d) && e == Entry(d, k)
  {
    EntrySpan(fs.lay, fs.blocks, fs.inodes[dp], fs.ptr, dp, d, k);
    var tot;
    tot, e := fs.Readi(dp, off, DIRENT, DIRENT);
    assert tot == DIRENT;
  }

  /** dirlookup: the inode number that the directory's map gives for the name, or 0; and where. */
  method Dirlookup(fs: F.Fs, dp: nat, name: Name, ghost d: seq<byte>) returns (inum: nat, off: nat, ghost k: nat)
    requires Is(fs, dp, d) && DirOk(d) && fs.inodes[dp].kind == T_DIR && NoZero(name)
    modifies fs
    ensures Same(fs) && Is(fs, dp, d) && inum == Value(DirMap(d), Pad(name))
    ensures inum != 0 ==> off == DIRENT * k && Live(d, k) && NameOf(Entry(d, k)) == Pad(name)
  {
    off, k := 0, 0;
    while off < fs.inodes[dp].size
      invariant off == DIRENT * k && k <= Count(d) && Same(fs) && Is(fs, dp, d) && NotBefore(d, k, Pad(name))
      decreases |d| - off
    {
      var e := ReadEntry(fs, dp, off, k, d);
      var found := Matches(name, e, k, d);
      if found {
        return InumOf(e), off, k;
      }
      off, k := off + DIRENT, k + 1;
    }
    NotAtAll(d, k, Pad(name));
    inum := 0;
  }

  /** The body of dirlookup's loop. */
  method Matches(name: Name, e: seq<byte>, ghost k: nat, ghost d: seq<byte>) returns (found: bool)
    requires DirOk(d) && k < Count(d) && e == Entry(d, k) && NoZero(name) && NotBefore(d, k, Pad(name))
    ensures if found then Live(d, k) && NameOf(e) == Pad(name) && InumOf(e) == Value(DirMap(d), Pad(name))
            && InumOf(e) != 0
            else NotBefore(d, k + 1, Pad(name))
  {
    if InumOf(e) == 0 {
      return false;
    }
    assert Live(d, k);
    found := Namecmp(name, NameOf(e));
    if found {
      Bound(d, k);
    }
  }

  ghost function Value(m: map<Name, nat>, key: Name): nat {
    if key in m then m[key] else 0
  }

  /** None of the first k entries is in use with this name. */
  ghost predicate NotBefore(d: seq<byte>, k: nat, key: Name) {
    forall j :: 0 <= j < k && Live(d, j) ==> NameOf(Entry(d, j)) != key
  }

  lemma NotAtAll(d: seq<byte>, k: nat, key: Name)
    requires DirOk(d) && NotBefore(d, k, key) && DIRENT * k >= |d|
    ensures key !in DirMap(d)
  {
    Unbound(d, key);
  }

  /** The loop of dirlink: the first entry that is free, or the end. */
  method FreeEntry(fs: F.Fs, dp: nat, ghost d: seq<byte>) returns (off: nat, ghost k: nat)
    requires Is(fs, dp, d)
    modifies fs
    ensures Same(fs) && Is(fs, dp, d) && off == DIRENT * k && k <= Count(d) && !Live(d, k)
  {
    off, k := 0, 0;
    while off < fs.inodes[dp].size
      invariant off == DIRENT * k && k <= Count(d) && Same(fs) && Is(fs, dp, d)
      decreases |d| - off
    {
      var e := ReadEntry(fs, dp, off, k, d);
      if InumOf(e) == 0 { return; }
      off, k := off + DIRENT, k + 1;
    }
  }

  /** writei of one entry: all of it or nothing, because no entry straddles two blocks; and all of it if
      the entry is there already. */
  method WriteEntry(fs: F.Fs, dp: nat, off: nat, e: seq<byte>, ghost k: nat, ghost d: seq<byte>) returns (ok: bool)
    requires Is(fs, dp, d) && fs.Synced() && off == DIRENT * k && k <= Count(d) && |e| == DIRENT
    modifies fs
    ensures Written(old(fs.blocks), old(fs.inodes), old(fs.ptr), fs, dp) && (k < Count(d) ==> ok)
    ensures fs.File(dp) == if ok then Put(d, k, e) else d
    ensures OneLogged(fs.lay, old(fs.logged), fs.logged, fs.ptr, dp)
    ensures !ok ==> NoRoom(fs.lay, fs.blocks, |d|)
  {
    assert Represents(fs.lay, fs.blocks, fs.inodes[dp], fs.ptr, dp);
    var tot;
    ghost var data, turns;
    tot, data, turns := fs.Writei(dp, e, off, DIRENT);
    ok := tot == DIRENT;
    OneEntry(d, k, e, tot, turns);
    FewLogged(fs.lay, old(fs.logged), fs.logged, fs.ptr, dp, data, k);
  }

  /** Every block is in use, or a file of n bytes cannot grow by an entry. */
  ghost predicate NoRoom(lay: Superblock, blocks: seq<ByteBlock>, n: nat) {
    (BlocksOk(lay, blocks) && F.UsedBelow(lay, blocks, lay.size)) || n + DIRENT > MAXFILE * BSIZE
  }

  /** Only the contents of dp have changed, and everything is on disk. */
  ghost predicate Written(blocks0: seq<ByteBlock>, inodes0: seq<Inode>, ptr0: Ptrs, fs: F.Fs, dp: nat)
    reads fs
  {
    && fs.Valid() && fs.Synced() && dp < fs.lay.ninodes == |inodes0|
    && F.RestSame(blocks0, inodes0, ptr0, fs.blocks, fs.inodes, fs.ptr, dp)
    && fs.inodes[dp].kind == inodes0[dp].kind && fs.inodes[dp].nlink == inodes0[dp].nlink
  }

  lemma OneEntry(d: seq<byte>, k: nat, e: seq<byte>, tot: int, turns: nat)
    requires DirSize(d) && k <= Count(d) && |e| == DIRENT && tot <= DIRENT
    requires tot >= 0 ==> F.Turns(DIRENT * k, tot, DIRENT, turns)
    ensures tot <= 0 || tot == DIRENT
    ensures F.Overlay(d, DIRENT * k, e[..0]) == d && F.Overlay(d, DIRENT * k, e[..DIRENT]) == Put(d, k, e)
  {
    assert e[..DIRENT] == e;
  }

  /** dirlink: a name that is not there yet is added to the map.  On failure nothing has changed: the name is there, or
      there is no room for an entry. */
  method Dirlink(fs: F.Fs, dp: nat, name: Name, inum: nat, ghost d: seq<byte>) returns (ok: bool)
    requires Is(fs, dp, d) && DirOk(d) && fs.Synced() && fs.inodes[dp].kind == T_DIR && NoZero(name) && 0 < inum < 65536
    modifies fs
    ensures Written(old(fs.blocks), old(fs.inodes), old(fs.ptr), fs, dp) && DirOk(fs.File(dp))
    ensures Pad(name) in DirMap(d) ==> !ok
    ensures !ok ==> Pad(name) in DirMap(d) || NoRoom(fs.lay, fs.blocks, |d|)
    ensures |fs.File(dp)| <= |d| + DIRENT
    ensures DirMap(fs.File(dp)) == if ok then DirMap(d)[Pad(name) := inum] else DirMap(d)
    ensures OneLogged(fs.lay, old(fs.logged), fs.logged, fs.ptr, dp)
    ensures old(DirsOk(Snapshot(fs))) && inum < fs.lay.ninodes ==> DirsOk(Snapshot(fs))
  {
    ghost var img := Snapshot(fs);
    ok := AddEntry(fs, dp, name, inum, d);
    LinkKeepsDirs(img, Snapshot(fs), dp, Pad(name), inum, ok);
  }

  /** The body of dirlink. */
  method AddEntry(fs: F.Fs, dp: nat, name: Name, inum: nat, ghost d: seq<byte>) returns (ok: bool)
    requires Is(fs, dp, d) && DirOk(d) && fs.Synced() && fs.inodes[dp].kind == T_DIR && NoZero(name) && 0 < inum < 65536
    modifies fs
    ensures Written(old(fs.blocks), old(fs.inodes), old(fs.ptr), fs, dp) && DirOk(fs.File(dp))
    ensures Pad(name) in DirMap(d) ==> !ok
    ensures !ok ==> Pad(name) in DirMap(d) || NoRoom(fs.lay, fs.blocks, |d|)
    ensures |fs.File(dp)| <= |d| + DIRENT
    ensures DirMap(fs.File(dp)) == if ok then DirMap(d)[Pad(name) := inum] else DirMap(d)
    ensures OneLogged(fs.lay, old(fs.logged), fs.logged, fs.ptr, dp)
  {
    ghost var blocks0, inodes0, ptr0 := fs.blocks, fs.inodes, fs.ptr;
    ghost var k;
    var there, at;
    there, at, k := Dirlookup(fs, dp, name, d);
    if there != 0 {
      Untouched(blocks0, inodes0, ptr0, fs, dp);
      Present(d, Pad(name));
      return false;
    }
    Absent(d, Pad(name));
    var off;
    off, k := FreeEntry(fs, dp, d);
    PadCanonical(name);
    AddName(d, k, Pad(name), inum);
    ok := WriteEntry(fs, dp, off, Dirent(inum, Pad(name)), k, d);
  }

  ghost function Snapshot(fs: F.Fs): Image
    reads fs
  {
    Image(fs.blocks, fs.inodes, fs.ptr)
  }

  /** A write to one directory that leaves it in order leaves all of them in order. */
  lemma DirsKept(img0: Image, img: Image, dp: nat)
    requires dp < |img.inodes| && F.RestSame(img0.blocks, img0.inodes, img0.ptr, img.blocks, img.inodes, img.ptr, dp)
    requires DirsOk(img0) && (img.inodes[dp].kind == T_DIR ==> OneDirOk(img, dp))
    ensures DirsOk(img)
  {
    forall i | 0 <= i < |img.inodes| && img.inodes[i].kind == T_DIR ensures OneDirOk(img, i) {
      if i != dp {
        assert img.inodes[i] == img0.inodes[i];
        assert OneDirOk(img0, i);
      }
    }
  }

  lemma LinkKeepsDirs(img0: Image, img: Image, dp: nat, key: Name, inum: nat, ok: bool)
    requires dp < |img.inodes| && F.RestSame(img0.blocks, img0.inodes, img0.ptr, img.blocks, img.inodes, img.ptr, dp)
    requires img0.inodes[dp].kind == T_DIR && DirSize(Bytes(img0, dp)) && DirOk(Bytes(img0, dp))
    requires DirSize(Bytes(img, dp)) && DirOk(Bytes(img, dp))
    requires DirMap(Bytes(img, dp)) == if ok then DirMap(Bytes(img0, dp))[key := inum] else DirMap(Bytes(img0, dp))
    ensures DirsOk(img0) && inum < |img.inodes| ==> DirsOk(img)
  {
    if DirsOk(img0) && inum < |img.inodes| {
      assert OneDirOk(img0, dp);
      DirsKept(img0, img, dp);
    }
  }

  /** Besides the bitmap, at most one block of directory dp, its indirect block and its inode's block have
      been logged. */
  ghost predicate OneLogged(lay: Superblock, logged0: set<nat>, logged: set<nat>, ptr: Ptrs, dp: nat) {
    exists b: nat ::
      F.Accounted(lay, logged0 + {lay.InodeBlock(dp)}, logged, {b}, Get(ptr, Slot(dp, MAXFILE)))
  }

  /** An entry does not cross a block boundary. */
  lemma OneBlock(k: nat)
    ensures F.Touched(DIRENT * k, DIRENT) == 1
  {
  }

  lemma FewLogged(lay: Superblock, logged0: set<nat>, logged: set<nat>, ptr: Ptrs, dp: nat, data: set<nat>, k: nat)
    requires logged == logged0 || |data| <= F.Touched(DIRENT * k, DIRENT)
    requires logged == logged0 || F.Accounted(lay, logged0 + {lay.InodeBlock(dp)}, logged, data,
                                              Get(ptr, Slot(dp, MAXFILE)))
    ensures OneLogged(lay, logged0, logged, ptr, dp)
  {
    OneBlock(k);
    var b := 0;
    if logged != logged0 && data != {} {
      b :| b in data;
      assert |data - {b}| == 0;
      assert data == {b};
    }
    assert F.Accounted(lay, logged0 + {lay.InodeBlock(dp)}, logged, {b}, Get(ptr, Slot(dp, MAXFILE)));
  }

  lemma Untouched(blocks0: seq<ByteBlock>, inodes0: seq<Inode>, ptr0: Ptrs, fs: F.Fs, dp: nat)
    requires fs.Valid() && fs.Synced() && dp < fs.lay.ninodes && fs.blocks == blocks0 && fs.inodes == inodes0
             && fs.ptr == ptr0
    ensures Written(blocks0, inodes0, ptr0, fs, dp) && OneLogged(fs.lay, fs.logged, fs.logged, fs.ptr, dp)
  {
    FewLogged(fs.lay, fs.logged, fs.logged, fs.ptr, dp, {}, 0);
  }

  lemma Present(d: seq<byte>, key: Name)
    requires DirOk(d) && Value(DirMap(d), key) != 0
    ensures key in DirMap(d)
  {
  }

  /** A name that is bound is bound to an inode number other than 0. */
  lemma Absent(d: seq<byte>, key: Name)
    requires DirOk(d) && Value(DirMap(d), key) == 0
    ensures key !in DirMap(d)
  {
    if key in DirMap(d) {
      var k := BoundBy(d, key);
    }
  }

  lemma PadCanonical(name: Name)
    requires NoZero(name)
    ensures Canonical(Pad(name))
  {
  }

  /** unlink's clearing write: the name is taken out of the map; the panic cannot happen. */
  method Dirunlink(fs: F.Fs, dp: nat, off: nat, ghost k: nat, ghost d: seq<byte>)
    requires Is(fs, dp, d) && DirOk(d) && fs.Synced() && off == DIRENT * k && Live(d, k)
    modifies fs
    ensures Written(old(fs.blocks), old(fs.inodes), old(fs.ptr), fs, dp) && DirOk(fs.File(dp))
    ensures DirMap(fs.File(dp)) == DirMap(d) - {NameOf(Entry(d, k))}
    ensures OneLogged(fs.lay, old(fs.logged), fs.logged, fs.ptr, dp)
    ensures old(DirsOk(Snapshot(fs))) ==> DirsOk(Snapshot(fs))
  {
    ghost var img := Snapshot(fs);
    var zeros: seq<byte> := seq(DIRENT, i => 0);
    RemoveName(d, k, zeros);
    var ok := WriteEntry(fs, dp, off, zeros, k, d);
    assert ok;
    if DirsOk(img) {
      assert fs.inodes[dp].kind == T_DIR ==> OneDirOk(img, dp);
      DirsKept(img, Snapshot(fs), dp);
    }
  }

  // ---- Paths ----------------------------------------------------------------------------------------

  /** What is kept of a path component. */
  function Cut(c: Name): Name {
    if |c| >= DIRSIZ then c[..DIRSIZ] else c
  }

  /** skipelem: the next component, cut to DIRSIZ bytes, and the path after it without leading slashes. */
  method Skipelem(path: Name) returns (found: bool, name: Name, rest: Name)
    ensures found <==> Components(path) != []
    ensures found ==> name == Cut(Components(path)[0]) && Components(rest) == Components(path)[1..] && |rest| < |path|
    ensures found ==> (rest == [] <==> |Components(path)| == 1)
  {
    var p := SkipSlashes(path);
    if p == [] {
      return false, [], [];
    }
    var len := 0;
    while len < |p| && p[len] != SLASH
      invariant 0 <= len <= |p| && forall i :: 0 <= i < len ==> p[i] != SLASH
    {
      len := len + 1;
    }
    ElemOf(p[..len], p[len..]);
    assert p == p[..len] + p[len..];
    name := Cut(p[..len]);
    rest := SkipSlashes(p[len..]);
    EmptyRest(rest);
    return true, name, rest;
  }

  method SkipSlashes(path: Name) returns (p: Name)
    ensures Components(p) == Components(path) && (p != [] ==> p[0] != SLASH) && |p| <= |path|
  {
    p := path;
    while p != [] && p[0] == SLASH
      invariant Components(p) == Components(path) && |p| <= |path|
      decreases |p|
    {
      p := p[1..];
    }
  }

  lemma EmptyRest(rest: Name)
    requires rest != [] ==> rest[0] != SLASH
    ensures rest == [] <==> Components(rest) == []
  {
  }

  /** What path names depend on. */
  datatype Image = Image(blocks: seq<ByteBlock>, inodes: seq<Inode>, ptr: Ptrs)

  ghost function Bytes(img: Image, i: nat): seq<byte>
    requires i < |img.inodes|
  {
    Contents(img.blocks, img.ptr, i, img.inodes[i].size)
  }

  /** Every directory is in order, and its entries name inodes that exist. */
  ghost predicate DirsOk(img: Image) {
    forall i {:trigger OneDirOk(img, i)} :: 0 <= i < |img.inodes| && img.inodes[i].kind == T_DIR ==> OneDirOk(img, i)
  }

  ghost predicate OneDirOk(img: Image, i: nat)
    requires i < |img.inodes|
  {
    var d := Bytes(img, i);
    DirOk(d) && forall key :: key in DirMap(d) ==> DirMap(d)[key] < |img.inodes|
  }

  /** One step of a path: what the directory says, or 0. */
  ghost function StepTo(img: Image, ip: nat, c: Name): (r: nat)
    requires DirsOk(img) && ip < |img.inodes|
    ensures r < |img.inodes|
  {
    if img.inodes[ip].kind == T_DIR && OneDirOk(img, ip) then Value(DirMap(Bytes(img, ip)), Pad(c)) else 0
  }

  /** Following all components from ip on; 0 if that is not possible. */
  ghost function Resolve(img: Image, ip: nat, c: seq<Name>): (r: nat)
    requires DirsOk(img) && ip < |img.inodes|
    ensures r < |img.inodes|
    decreases |c|
  {
    if c == [] then ip
    else
      var next := StepTo(img, ip, c[0]);
      if next == 0 then 0 else Resolve(img, next, c[1..])
  }

  /** The directory that holds the last component. */
  ghost function ParentOf(img: Image, ip: nat, c: seq<Name>): nat
    requires DirsOk(img) && ip < |img.inodes|
  {
    if c == [] then 0
    else
      var p := Resolve(img, ip, c[..|c| - 1]);
      if img.inodes[p].kind == T_DIR then p else 0
  }

  lemma CutPad(c: Name)
    ensures Pad(Cut(c)) == Pad(c)
  {
  }

  /** What namex is to return. */
  ghost predicate Reached(img: Image, start: nat, all: seq<Name>, parent: bool, ip: nat, name: Name)
    requires DirsOk(img) && start < |img.inodes|
  {
    if parent then ip == ParentOf(img, start, all) && (ip != 0 ==> all != [] && name == Cut(all[|all| - 1]))
    else ip == Resolve(img, start, all)
  }

  /** namex has come to ip, with the components c to go. */
  ghost predicate Along(img: Image, start: nat, all: seq<Name>, parent: bool, ip: nat, c: seq<Name>)
    requires DirsOk(img) && start < |img.inodes|
  {
    && 0 < ip < |img.inodes| && Resolve(img, start, all) == Resolve(img, ip, c)
    && (parent ==> (c == [] <==> all == []) && ParentOf(img, start, all) == ParentOf(img, ip, c))
    && (c != [] ==> all != [] && all[|all| - 1] == c[|c| - 1])
  }

  lemma {:induction false} PathEnds(img: Image, start: nat, all: seq<Name>, parent: bool, ip: nat, name: Name)
    requires DirsOk(img) && start < |img.inodes| && Along(img, start, all, parent, ip, [])
    ensures Reached(img, start, all, parent, if parent then 0 else ip, name)
  {
  }

  lemma {:induction false} PathStops(img: Image, start: nat, all: seq<Name>, parent: bool, ip: nat, c: seq<Name>,
                                     name: Name)
    requires DirsOk(img) && start < |img.inodes| && Along(img, start, all, parent, ip, c) && c != []
             && StepTo(img, ip, c[0]) == 0
    requires |c| == 1 && parent ==> img.inodes[ip].kind != T_DIR
    ensures Reached(img, start, all, parent, 0, name)
  {
    if |c| > 1 {
      assert c[..|c| - 1][0] == c[0];
    }
  }

  lemma {:induction false} PathParent(img: Image, start: nat, all: seq<Name>, ip: nat, c: seq<Name>)
    requires DirsOk(img) && start < |img.inodes| && Along(img, start, all, true, ip, c) && |c| == 1
             && img.inodes[ip].kind == T_DIR
    ensures Reached(img, start, all, true, ip, Cut(c[0]))
  {
    assert c[..0] == [];
  }

  lemma {:induction false} PathGoesOn(img: Image, start: nat, all: seq<Name>, parent: bool, ip: nat, c: seq<Name>)
    requires DirsOk(img) && start < |img.inodes| && Along(img, start, all, parent, ip, c) && c != []
             && StepTo(img, ip, c[0]) != 0
    requires parent ==> |c| > 1
    ensures Along(img, start, all, parent, StepTo(img, ip, c[0]), c[1..])
  {
    if |c| > 1 {
      ParentNext(img, ip, c);
    }
  }

  lemma {:induction false} ParentNext(img: Image, ip: nat, c: seq<Name>)
    requires DirsOk(img) && ip < |img.inodes| && |c| > 1 && StepTo(img, ip, c[0]) != 0
    ensures ParentOf(img, ip, c) == ParentOf(img, StepTo(img, ip, c[0]), c[1..])
  {
    var a := c[..|c| - 1];
    assert a[0] == c[0] && a[1..] == c[1..][..|c| - 2];
  }

  /** dirlookup of one component. */
  method LookupIn(fs: F.Fs, ip: nat, name: Name, ghost c: Name, ghost img: Image) returns (next: nat)
    requires fs.Valid() && img == Image(fs.blocks, fs.inodes, fs.ptr) && DirsOk(img) && ip < |img.inodes|
    requires fs.inodes[ip].kind == T_DIR && NoZero(c) && name == Cut(c)
    modifies fs
    ensures Same(fs) && next == StepTo(img, ip, c)
  {
    assert OneDirOk(img, ip);
    CutPad(c);
    ghost var k;
    var off;
    next, off, k := Dirlookup(fs, ip, name, Bytes(img, ip));
  }

  /** namex: every component in order, from the root for a path that starts with a slash; with `parent`
      the directory of the last component and that component. */
  method Namex(fs: F.Fs, path: Name, cwd: nat, parent: bool, ghost img: Image) returns (ip: nat, name: Name)
    requires fs.Valid() && img == Image(fs.blocks, fs.inodes, fs.ptr) && DirsOk(img) && NoZero(path)
    requires 0 < cwd < fs.lay.ninodes && ROOTINO < fs.lay.ninodes
    modifies fs
    ensures Same(fs)
    ensures Reached(img, if path != [] && path[0] == SLASH then ROOTINO else cwd, Components(path), parent, ip, name)
  {
    ip := if path != [] && path[0] == SLASH then ROOTINO else cwd;
    ghost var start, all := ip, Components(path);
    ComponentsNoZero(path);
    var p, stop := path, false;
    name := [];
    while !stop
      invariant Same(fs) && start < |img.inodes|
      invariant if stop then Reached(img, start, all, parent, ip, name)
                else Along(img, start, all, parent, ip, Components(p)) && AllNoZero(Components(p))
      decreases |p|, !stop
    {
      stop, ip, name, p := OneElem(fs, p, ip, parent, img, start, all);
    }
  }

  /** One turn of its loop. */
  method OneElem(fs: F.Fs, p: Name, ip: nat, parent: bool, ghost img: Image, ghost start: nat, ghost all: seq<Name>)
    returns (stop: bool, next: nat, name: Name, rest: Name)
    requires fs.Valid() && img == Image(fs.blocks, fs.inodes, fs.ptr) && DirsOk(img) && start < |img.inodes|
    requires Along(img, start, all, parent, ip, Components(p)) && AllNoZero(Components(p))
    modifies fs
    ensures Same(fs) && |rest| <= |p| && (!stop ==> |rest| < |p|)
    ensures if stop then Reached(img, start, all, parent, next, name)
            else Along(img, start, all, parent, next, Components(rest)) && AllNoZero(Components(rest))
  {
    ghost var c := Components(p);
    var found;
    found, name, rest := Skipelem(p);
    if !found {
      PathEnds(img, start, all, parent, ip, name);
      return true, if parent then 0 else ip, name, p;
    }
    if fs.inodes[ip].kind != T_DIR {
      PathStops(img, start, all, parent, ip, c, name);
      return true, 0, name, p;
    }
    if parent && rest == [] {
      PathParent(img, start, all, ip, c);
      return true, ip, name, p;
    }
    next := LookupIn(fs, ip, name, c[0], img);
    stop := next == 0;
    if stop {
      PathStops(img, start, all, parent, ip, c, name);
    } else {
      PathGoesOn(img, start, all, parent, ip, c);
    }
  }

  ghost predicate AllNoZero(c: seq<Name>) {
    forall i :: 0 <= i < |c| ==> NoZero(c[i])
  }

  lemma {:induction false} ComponentsNoZero(path: Name)
    requires NoZero(path)
    ensures AllNoZero(Components(path))
    decreases |path|
  {
    if path != [] {
      if path[0] == SLASH {
        ComponentsNoZero(path[1..]);
      } else {
        ComponentsNoZero(path[ElemEnd(path)..]);
      }
    }
  }
}
