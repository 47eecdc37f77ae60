/** The operations of the file system between begin_op and end_op (create, sys_link and sys_unlink in
kernel/sysfile.c, ialloc and iput in kernel/fs.c): what they do to inodes and directories, and how many blocks each
puts into the log. */
module FsOps {
  import opened ByteString
  import opened DiskBytes
  import opened FsSpec
  import opened DirSpec
  import F = Fs
  import D = Dir
  import LogSpec

  const T_FILE: nat := 2
  const T_DEVICE: nat := 3
  const DOT: Name := [46]
  const DOTDOT: Name := [46, 46]

  function Zeros(): seq<nat> {
    seq(NDIRECT + 1, k => 0)
  }

  /** A free inode has no links, no bytes and no blocks. */
  ghost predicate FreeEmpty(inodes: seq<Inode>) {
    forall i :: 0 <= i < |inodes| && inodes[i].kind == 0 ==> inodes[i] == Inode(0, 0, 0, Zeros())
  }

  /** What every operation keeps. */
  ghost predicate Good(fs: F.Fs)
    reads fs
  {
    && fs.Valid() && fs.Synced() && D.DirsOk(D.Snapshot(fs)) && FreeEmpty(fs.inodes) && fs.lay.ninodes <= 65536
  }

  // ---- What stays the same --------------------------------------------------------------------------

  /** Inodes and files other than those in s are as before. */
  ghost predicate Apart(img0: D.Image, img: D.Image, s: set<nat>) {
    && |img.inodes| == |img0.inodes|
    && forall j {:trigger img.inodes[j]} :: 0 <= j < |img.inodes| && j !in s ==>
         img.inodes[j] == img0.inodes[j] && D.Bytes(img, j) == D.Bytes(img0, j)
  }

  lemma ApartOne(img0: D.Image, img: D.Image, i: nat, s: set<nat>)
    requires F.RestSame(img0.blocks, img0.inodes, img0.ptr, img.blocks, img.inodes, img.ptr, i) && i in s
    ensures Apart(img0, img, s)
  {
  }

  lemma ApartTrans(img0: D.Image, img1: D.Image, img: D.Image, s: set<nat>)
    requires Apart(img0, img1, s) && Apart(img1, img, s)
    ensures Apart(img0, img, s)
  {
    forall j | 0 <= j < |img.inodes| && j !in s
      ensures img.inodes[j] == img0.inodes[j] && D.Bytes(img, j) == D.Bytes(img0, j)
    {
      assert img1.inodes[j] == img0.inodes[j];
    }
  }

  // ---- What is logged -------------------------------------------------------------------------------

  /** Besides the bitmap and the inode blocks `inos`, only the blocks in `data` have been logged. */
  ghost predicate Logged(lay: Superblock, logged: set<nat>, inos: set<nat>, data: set<nat>) {
    logged <= inos + F.Bitmaps(lay) + data
  }

  /** At most n blocks have been logged besides the bitmap and the inode blocks `inos`. */
  ghost predicate AtMost(lay: Superblock, logged: set<nat>, inos: set<nat>, n: nat) {
    exists data :: Logged(lay, logged, inos, data) && |data| <= n
  }

  lemma LogSize(lay: Superblock, logged: set<nat>, inos: set<nat>, n: nat)
    requires AtMost(lay, logged, inos, n)
    ensures |logged| <= |inos| + F.BitmapCount(lay) + n
  {
    var data :| Logged(lay, logged, inos, data) && |data| <= n;
    F.FourSets(logged, inos, F.Bitmaps(lay), data, {});
    F.BitmapSize(lay);
  }

  lemma NothingLogged(lay: Superblock, inos: set<nat>)
    ensures AtMost(lay, {}, inos, 0)
  {
    assert Logged(lay, {}, inos, {});
  }

  /** Updating and freeing inodes in these blocks adds nothing. */
  lemma LogInode(lay: Superblock, logged: set<nat>, logged': set<nat>, inos: set<nat>, ib: nat, n: nat)
    requires AtMost(lay, logged, inos, n) && ib in inos && logged' <= logged + F.Bitmaps(lay) + {ib}
    ensures AtMost(lay, logged', inos, n)
  {
    var data :| Logged(lay, logged, inos, data) && |data| <= n;
    assert Logged(lay, logged', inos, data);
  }

  /** A change of a directory entry adds a block of the directory and its indirect block at most. */
  lemma LogEntry(lay: Superblock, logged: set<nat>, logged': set<nat>, ptr: Ptrs, dp: nat, inos: set<nat>, n: nat)
    requires AtMost(lay, logged, inos, n) && D.OneLogged(lay, logged, logged', ptr, dp) && lay.InodeBlock(dp) in inos
    ensures AtMost(lay, logged', inos, n + 2)
  {
    var ind := Get(ptr, Slot(dp, MAXFILE));
    var b: nat :| F.Accounted(lay, logged + {lay.InodeBlock(dp)}, logged', {b}, ind);
    LogBlock(lay, logged, logged', inos, lay.InodeBlock(dp), b, ind, n);
  }

  lemma LogBlock(lay: Superblock, logged: set<nat>, logged': set<nat>, inos: set<nat>, ib: nat, b: nat, ind: nat,
                 n: nat)
    requires AtMost(lay, logged, inos, n) && F.Accounted(lay, logged + {ib}, logged', {b}, ind) && ib in inos
    ensures AtMost(lay, logged', inos, n + 2)
  {
    var data :| Logged(lay, logged, inos, data) && |data| <= n;
    var data' := TwoMore(logged, logged', inos, F.Bitmaps(lay), data, ib, b, ind);
    assert Logged(lay, logged', inos, data');
  }

  lemma TwoMore(logged: set<nat>, logged': set<nat>, inos: set<nat>, bitmaps: set<nat>, data: set<nat>, ib: nat, b: nat,
                ind: nat)
    returns (data': set<nat>)
    requires logged <= inos + bitmaps + data && ib in inos
    requires logged' <= logged + {ib} + bitmaps + {b} + ({ind} - {0})
    ensures logged' <= inos + bitmaps + data' && |data'| <= |data| + 2
  {
    data' := data + {b} + {ind};
    F.UnionSize(data, {b});
    F.UnionSize(data + {b}, {ind});
  }

  // ---- Inodes ---------------------------------------------------------------------------------------

  lemma MetaConsistent(lay: Superblock, blocks: seq<ByteBlock>, inodes: seq<Inode>, ptr: Ptrs, owner: Owners, i: nat,
                       kind: nat, nlink: nat)
    requires Consistent(lay, blocks, inodes, ptr, owner, 0, lay.ninodes) && i < lay.ninodes
    ensures Consistent(lay, blocks, inodes[i := inodes[i].(kind := kind, nlink := nlink)], ptr, owner, 0, lay.ninodes)
  {
    var inodes' := inodes[i := inodes[i].(kind := kind, nlink := nlink)];
    forall k | 0 <= k < lay.ninodes ensures Represents(lay, blocks, inodes'[k], ptr, k) {
      assert Represents(lay, blocks, inodes[k], ptr, k);
    }
  }

  lemma MetaApart(img: D.Image, i: nat, kind: nat, nlink: nat, s: set<nat>)
    requires i < |img.inodes| && i in s
    ensures Apart(img, img.(inodes := img.inodes[i := img.inodes[i].(kind := kind, nlink := nlink)]), s)
  {
    var img' := img.(inodes := img.inodes[i := img.inodes[i].(kind := kind, nlink := nlink)]);
    forall j | 0 <= j < |img'.inodes| && j !in s
      ensures img'.inodes[j] == img.inodes[j] && D.Bytes(img', j) == D.Bytes(img, j)
    {
    }
  }

  /** Directories stay in order if an inode changes its count, or becomes a directory while it is empty. */
  lemma MetaDirs(img: D.Image, i: nat, kind: nat, nlink: nat)
    requires i < |img.inodes| && D.DirsOk(img)
    requires kind == img.inodes[i].kind || kind != D.T_DIR || img.inodes[i].size == 0
    ensures D.DirsOk(img.(inodes := img.inodes[i := img.inodes[i].(kind := kind, nlink := nlink)]))
  {
    var img' := img.(inodes := img.inodes[i := img.inodes[i].(kind := kind, nlink := nlink)]);
    forall j | 0 <= j < |img'.inodes| && img'.inodes[j].kind == D.T_DIR ensures D.OneDirOk(img', j) {
      assert D.Bytes(img', j) == D.Bytes(img, j);
      if j != i || kind == img.inodes[i].kind {
        assert D.OneDirOk(img, j);
      } else {
        EmptyDir(D.Bytes(img', j));
      }
    }
  }

  lemma EmptyDir(d: seq<byte>)
    requires d == []
    ensures DirOk(d) && DirMap(d) == map[]
  {
  }

  /** Change type or link count of an inode, and iupdate. */
  method SetInode(fs: F.Fs, i: nat, kind: nat, nlink: nat)
    requires fs.Valid() && fs.Synced() && i < fs.lay.ninodes
    modifies fs`inodes, fs`dinodes, fs`logged
    ensures fs.Valid() && fs.Synced()
    ensures fs.inodes == old(fs.inodes)[i := old(fs.inodes)[i].(kind := kind, nlink := nlink)]
    ensures fs.logged == old(fs.logged) + {fs.lay.InodeBlock(i)}
  {
    MetaConsistent(fs.lay, fs.blocks, fs.inodes, fs.ptr, fs.owner, i, kind, nlink);
    fs.inodes := fs.inodes[i := fs.inodes[i].(kind := kind, nlink := nlink)];
    fs.dinodes := fs.dinodes[i := fs.inodes[i]];
    fs.logged := fs.logged + {fs.lay.InodeBlock(i)};
  }

  /** ialloc: the first free inode, now of the given type, without links, bytes and blocks; or 0 if there is none. */
  method Ialloc(fs: F.Fs, kind: nat) returns (i: nat)
    requires Good(fs) && kind != 0 && fs.lay.ninodes > 0
    modifies fs`inodes, fs`dinodes, fs`logged
    ensures Good(fs) && i < fs.lay.ninodes
    ensures forall j :: 0 < j < (if i == 0 then fs.lay.ninodes else i) ==> old(fs.inodes)[j].kind != 0
    ensures i == 0 ==> fs.inodes == old(fs.inodes) && fs.logged == old(fs.logged)
    ensures i != 0 ==> old(fs.inodes)[i].kind == 0 && fs.inodes == old(fs.inodes)[i := Inode(kind, 0, 0, Zeros())]
                       && fs.logged == old(fs.logged) + {fs.lay.InodeBlock(i)}
  {
    i := 1;
    while i < fs.lay.ninodes && fs.dinodes[i].kind != 0
      invariant 1 <= i && (i <= fs.lay.ninodes || fs.lay.ninodes == 0)
      invariant forall j :: 0 < j < i && j < fs.lay.ninodes ==> fs.inodes[j].kind != 0
    {
      i := i + 1;
    }
    if i >= fs.lay.ninodes {
      return 0;
    }
    MetaDirs(D.Snapshot(fs), i, kind, 0);
    SetInode(fs, i, kind, 0);
  }

  /** iput by the last holder of an inode without links. */
  method Free(fs: F.Fs, i: nat)
    requires Good(fs) && i < fs.lay.ninodes && fs.inodes[i].nlink == 0
    modifies fs
    ensures Good(fs) && fs.inodes[i] == Inode(0, 0, 0, Zeros()) && Apart(old(D.Snapshot(fs)), D.Snapshot(fs), {i})
    ensures fs.logged <= old(fs.logged) + F.Bitmaps(fs.lay) + {fs.lay.InodeBlock(i)}
  {
    ghost var img, ptr := D.Snapshot(fs), fs.ptr;
    fs.FreeInode(i);
    NoAddresses(fs.lay, fs.blocks, fs.inodes[i], ptr, fs.ptr, i);
    D.DirsKept(img, D.Snapshot(fs), i);
    ApartOne(img, D.Snapshot(fs), i, {i});
  }

  lemma NoAddresses(lay: Superblock, blocks: seq<ByteBlock>, ino: Inode, ptr0: Ptrs, ptr: Ptrs, i: nat)
    requires BlocksOk(lay, blocks) && Represents(lay, blocks, ino, ptr, i) && F.Dropped(ptr0, ptr, i, MAXFILE + 1)
    requires Contents(blocks, ptr, i, ino.size) == []
    ensures ino.size == 0 && ino.addrs == Zeros()
  {
    forall k | 0 <= k <= NDIRECT ensures ino.addrs[k] == 0 {
      var s := Slot(i, if k == NDIRECT then MAXFILE else k);
      assert s !in ptr;
    }
  }

  // ---- Steps of an operation ------------------------------------------------------------------------

  /** An operation that began with img0 has touched the inodes s only, and logged n blocks besides those of inodes
      and the bitmap. */
  ghost predicate Since(fs: F.Fs, img0: D.Image, s: set<nat>, inos: set<nat>, n: nat)
    reads fs
  {
    Good(fs) && Apart(img0, D.Snapshot(fs), s) && AtMost(fs.lay, fs.logged, inos, n)
  }

  lemma Begun(fs: F.Fs, s: set<nat>, inos: set<nat>)
    requires Good(fs) && fs.logged == {}
    ensures Since(fs, D.Snapshot(fs), s, inos, 0)
  {
    NothingLogged(fs.lay, inos);
  }

  /** ip->nlink = nlink; iupdate(ip). */
  method Relink(fs: F.Fs, i: nat, nlink: nat, ghost img0: D.Image, ghost s: set<nat>, ghost inos: set<nat>,
                ghost n: nat)
    requires Since(fs, img0, s, inos, n) && i < fs.lay.ninodes && i in s && fs.lay.InodeBlock(i) in inos
    requires fs.inodes[i].kind != 0
    modifies fs`inodes, fs`dinodes, fs`logged
    ensures Since(fs, img0, s, inos, n) && fs.inodes == old(fs.inodes)[i := old(fs.inodes)[i].(nlink := nlink)]
  {
    ghost var img, kind, logged := D.Snapshot(fs), fs.inodes[i].kind, fs.logged;
    MetaDirs(img, i, kind, nlink);
    MetaApart(img, i, kind, nlink, s);
    SetInode(fs, i, fs.inodes[i].kind, nlink);
    ApartTrans(img0, img, D.Snapshot(fs), s);
    LogInode(fs.lay, logged, fs.logged, inos, fs.lay.InodeBlock(i), n);
  }

  /** dirlink. */
  method Enter(fs: F.Fs, dp: nat, name: Name, inum: nat, ghost d: seq<byte>, ghost img0: D.Image, ghost s: set<nat>,
               ghost inos: set<nat>, ghost n: nat)
    returns (ok: bool)
    requires Since(fs, img0, s, inos, n) && dp in s && fs.lay.InodeBlock(dp) in inos
    requires D.Is(fs, dp, d) && fs.inodes[dp].kind == D.T_DIR && NoZero(name) && 0 < inum < fs.lay.ninodes
    modifies fs
    ensures Since(fs, img0, s, inos, n + 2) && DirOk(d) && DirOk(fs.File(dp)) && (Pad(name) in DirMap(d) ==> !ok)
    ensures DirMap(fs.File(dp)) == if ok then DirMap(d)[Pad(name) := inum] else DirMap(d)
    ensures !ok ==> Pad(name) in DirMap(d) || D.NoRoom(fs.lay, fs.blocks, |d|)
    ensures |fs.File(dp)| <= |d| + DIRENT && Apart(old(D.Snapshot(fs)), D.Snapshot(fs), {dp})
    ensures fs.inodes[dp].kind == old(fs.inodes)[dp].kind && fs.inodes[dp].nlink == old(fs.inodes)[dp].nlink
  {
    ghost var img, logged := D.Snapshot(fs), fs.logged;
    assert D.OneDirOk(img, dp);
    ok := D.Dirlink(fs, dp, name, inum, d);
    ApartOne(img, D.Snapshot(fs), dp, {dp});
    ApartOne(img, D.Snapshot(fs), dp, s);
    ApartTrans(img0, img, D.Snapshot(fs), s);
    LogEntry(fs.lay, logged, fs.logged, fs.ptr, dp, inos, n);
    StillFree(img, D.Snapshot(fs), dp);
  }

  lemma StillFree(img: D.Image, img': D.Image, i: nat)
    requires FreeEmpty(img.inodes) && Apart(img, img', {i})
    requires i < |img'.inodes| && (img'.inodes[i].kind == 0 ==> img'.inodes[i] == Inode(0, 0, 0, Zeros()))
    ensures FreeEmpty(img'.inodes)
  {
  }

  /** The clearing write of unlink. */
  method Leave(fs: F.Fs, dp: nat, off: nat, ghost k: nat, ghost d: seq<byte>, ghost img0: D.Image, ghost s: set<nat>,
               ghost inos: set<nat>, ghost n: nat)
    requires Since(fs, img0, s, inos, n) && dp in s && fs.lay.InodeBlock(dp) in inos
    requires D.Is(fs, dp, d) && DirOk(d) && fs.inodes[dp].kind == D.T_DIR && off == DIRENT * k && Live(d, k)
    modifies fs
    ensures Since(fs, img0, s, inos, n + 2) && DirOk(fs.File(dp))
    ensures DirMap(fs.File(dp)) == DirMap(d) - {NameOf(Entry(d, k))}
    ensures Apart(old(D.Snapshot(fs)), D.Snapshot(fs), {dp})
    ensures fs.inodes[dp].kind == old(fs.inodes)[dp].kind && fs.inodes[dp].nlink == old(fs.inodes)[dp].nlink
  {
    ghost var img, logged := D.Snapshot(fs), fs.logged;
    D.Dirunlink(fs, dp, off, k, d);
    ApartOne(img, D.Snapshot(fs), dp, {dp});
    ApartOne(img, D.Snapshot(fs), dp, s);
    ApartTrans(img0, img, D.Snapshot(fs), s);
    LogEntry(fs.lay, logged, fs.logged, fs.ptr, dp, inos, n);
    StillFree(img, D.Snapshot(fs), dp);
  }

  /** iput: with the last reference an inode without links is freed. */
  method Iput(fs: F.Fs, i: nat, last: bool, ghost img0: D.Image, ghost s: set<nat>, ghost inos: set<nat>, ghost n: nat)
    requires Since(fs, img0, s, inos, n) && i in s && i < fs.lay.ninodes && fs.lay.InodeBlock(i) in inos
    modifies fs
    ensures Since(fs, img0, s, inos, n) && Apart(old(D.Snapshot(fs)), D.Snapshot(fs), {i})
    ensures fs.inodes[i] == Released(old(fs.inodes)[i], last)
    ensures !(last && old(fs.inodes)[i].nlink == 0) ==> D.Snapshot(fs) == old(D.Snapshot(fs))
  {
    ghost var img, logged := D.Snapshot(fs), fs.logged;
    if last && fs.inodes[i].nlink == 0 {
      Free(fs, i);
      Wider(img, D.Snapshot(fs), {i}, s);
      ApartTrans(img0, img, D.Snapshot(fs), s);
      LogInode(fs.lay, logged, fs.logged, inos, fs.lay.InodeBlock(i), n);
    }
  }

  lemma Wider(img0: D.Image, img: D.Image, s: set<nat>, s': set<nat>)
    requires Apart(img0, img, s) && s <= s'
    ensures Apart(img0, img, s')
  {
  }

  /** What iput makes of an inode. */
  function Released(ino: Inode, last: bool): Inode {
    if last && ino.nlink == 0 then Inode(0, 0, 0, Zeros()) else ino
  }

  // ---- link -----------------------------------------------------------------------------------------

  /** sys_link once it has both inodes: the directory gains the name and the file a link; or nothing has changed,
      because the name is there or there is no room. */
  method Link(fs: F.Fs, dp: nat, name: Name, ip: nat, ghost d: seq<byte>) returns (ok: bool)
    requires Good(fs) && D.Is(fs, dp, d) && fs.inodes[dp].kind == D.T_DIR && NoZero(name) && fs.logged == {}
    requires 0 < ip < fs.lay.ninodes && fs.inodes[ip].kind != D.T_DIR && fs.inodes[ip].kind != 0
    modifies fs
    ensures Good(fs) && DirOk(d) && DirOk(fs.File(dp)) && (Pad(name) in DirMap(d) ==> !ok)
    ensures DirMap(fs.File(dp)) == if ok then DirMap(d)[Pad(name) := ip] else DirMap(d)
    ensures !ok ==> Pad(name) in DirMap(d) || D.NoRoom(fs.lay, fs.blocks, |d|)
    ensures fs.inodes[ip] == old(fs.inodes)[ip].(nlink := old(fs.inodes)[ip].nlink + if ok then 1 else 0)
    ensures fs.File(ip) == old(fs.File(ip)) && Apart(old(D.Snapshot(fs)), D.Snapshot(fs), {dp, ip})
    ensures |fs.logged| <= 4 + F.BitmapCount(fs.lay)
  {
    ghost var img0, s := D.Snapshot(fs), {dp, ip};
    ghost var inos := {fs.lay.InodeBlock(ip), fs.lay.InodeBlock(dp)};
    Begun(fs, s, inos);
    Relink(fs, ip, fs.inodes[ip].nlink + 1, img0, s, inos, 0);
    ghost var img1 := D.Snapshot(fs);
    ok := Enter(fs, dp, name, ip, d, img0, s, inos, 0);
    assert D.Snapshot(fs).inodes[ip] == img1.inodes[ip];
    if !ok {
      UndoLink(fs, ip, dp, img0, s, inos);
    }
    LogSize(fs.lay, fs.logged, inos, 2);
  }

  /** sys_link's way out. */
  method UndoLink(fs: F.Fs, ip: nat, ghost dp: nat, ghost img0: D.Image, ghost s: set<nat>, ghost inos: set<nat>)
    requires Since(fs, img0, s, inos, 2) && ip in s && ip < fs.lay.ninodes && fs.lay.InodeBlock(ip) in inos
    requires fs.inodes[ip].kind != 0 && fs.inodes[ip].nlink > 0 && dp < fs.lay.ninodes && dp != ip
    modifies fs`inodes, fs`dinodes, fs`logged
    ensures Since(fs, img0, s, inos, 2) && fs.File(dp) == old(fs.File(dp)) && fs.File(ip) == old(fs.File(ip))
    ensures fs.inodes[ip] == old(fs.inodes)[ip].(nlink := old(fs.inodes)[ip].nlink - 1)
  {
    Relink(fs, ip, fs.inodes[ip].nlink - 1, img0, s, inos, 2);
  }

  // ---- unlink ---------------------------------------------------------------------------------------

  /** isdirempty: nothing after the first two entries. */
  ghost predicate NoEntries(e: seq<byte>) {
    forall k :: k >= 2 ==> !Live(e, k)
  }

  method Isdirempty(fs: F.Fs, ip: nat, ghost e: seq<byte>) returns (empty: bool)
    requires D.Is(fs, ip, e)
    modifies fs
    ensures D.Same(fs) && D.Is(fs, ip, e) && (empty <==> NoEntries(e))
  {
    var off := 2 * DIRENT;
    ghost var k := 2;
    while off < fs.inodes[ip].size
      invariant D.Same(fs) && D.Is(fs, ip, e) && off == DIRENT * k && k >= 2
      invariant forall j :: 2 <= j < k ==> !Live(e, j)
      decreases |e| - off
    {
      var de := D.ReadEntry(fs, ip, off, k, e);
      if InumOf(de) != 0 {
        assert Live(e, k);
        return false;
      }
      off := off + DIRENT;
      k := k + 1;
    }
    empty := true;
  }

  ghost predicate IsDots(name: Name) {
    Pad(name) == Pad(DOT) || Pad(name) == Pad(DOTDOT)
  }

  lemma DotsCanonical()
    ensures Canonical(Pad(DOT)) && Canonical(Pad(DOTDOT)) && Pad(DOT) != Pad(DOTDOT) && NoZero(DOT) && NoZero(DOTDOT)
  {
    assert Pad(DOT)[1] == 0 && Pad(DOTDOT)[1] == 46;
  }

  /** The tests of sys_unlink. */
  method MayUnlink(fs: F.Fs, dp: nat, name: Name, ghost d: seq<byte>)
    returns (ok: bool, ip: nat, off: nat, ghost k: nat)
    requires Good(fs) && D.Is(fs, dp, d) && DirOk(d) && fs.inodes[dp].kind == D.T_DIR && NoZero(name)
    modifies fs
    ensures D.Same(fs) && D.Is(fs, dp, d) && ip == D.Value(DirMap(d), Pad(name)) && ip < fs.lay.ninodes
    ensures ok <==> ip != 0 && !IsDots(name)
                    && (fs.inodes[ip].kind == D.T_DIR ==> NoEntries(fs.File(ip)))
    ensures ok ==> off == DIRENT * k && Live(d, k) && NameOf(Entry(d, k)) == Pad(name)
  {
    assert D.OneDirOk(D.Snapshot(fs), dp);
    DotsCanonical();
    ip, off, k := D.Dirlookup(fs, dp, name, d);
    var dot := D.Namecmp(name, Pad(DOT));
    var dotdot := D.Namecmp(name, Pad(DOTDOT));
    ok := !dot && !dotdot && ip != 0;
    if ok && fs.inodes[ip].kind == D.T_DIR {
      assert D.OneDirOk(D.Snapshot(fs), ip);
      ok := Isdirempty(fs, ip, fs.File(ip));
    }
  }

  /** sys_unlink once it has the directory: it refuses a name that is "." or "..", a name that is not there and a
      directory that is not empty, and then nothing has changed.  Otherwise the name is gone and the inode has lost a
      link; so has the directory if it was a directory.  `last`: nobody else refers to the inode, which is then freed
      with its last link. */
  method Unlink(fs: F.Fs, dp: nat, name: Name, last: bool, ghost d: seq<byte>) returns (ok: bool, ip: nat)
    requires Good(fs) && D.Is(fs, dp, d) && DirOk(d) && fs.inodes[dp].kind == D.T_DIR && NoZero(name)
    requires fs.logged == {}
    requires var ip := D.Value(DirMap(d), Pad(name));
             ip != 0 && !IsDots(name) ==>
               ip != dp && ip < fs.lay.ninodes && fs.inodes[ip].nlink > 0 && fs.inodes[ip].kind != 0
               && (fs.inodes[ip].kind == D.T_DIR ==> fs.inodes[dp].nlink > 0)
    modifies fs
    ensures Good(fs) && ip == D.Value(DirMap(d), Pad(name)) && ip < fs.lay.ninodes
    ensures ok <==> ip != 0 && !IsDots(name)
                    && (old(fs.inodes)[ip].kind == D.T_DIR ==> NoEntries(D.Bytes(old(D.Snapshot(fs)), ip)))
    ensures !ok ==> D.Snapshot(fs) == old(D.Snapshot(fs)) && fs.logged == {}
    ensures ok ==> ip != dp && DirOk(fs.File(dp)) && DirMap(fs.File(dp)) == DirMap(d) - {Pad(name)}
    ensures ok ==> fs.inodes[dp].nlink == old(fs.inodes)[dp].nlink - if old(fs.inodes)[ip].kind == D.T_DIR then 1 else 0
    ensures ok ==> fs.inodes[ip] == Released(old(fs.inodes)[ip].(nlink := old(fs.inodes)[ip].nlink - 1), last)
    ensures Apart(old(D.Snapshot(fs)), D.Snapshot(fs), {dp, ip}) && |fs.logged| <= 4 + F.BitmapCount(fs.lay)
  {
    ghost var img0, logged := D.Snapshot(fs), fs.logged;
    var off;
    ghost var k;
    ok, ip, off, k := MayUnlink(fs, dp, name, d);
    if ok {
      Remove(fs, dp, ip, off, last, k, d);
    }
  }

  /** The part of sys_unlink that changes something. */
  method Remove(fs: F.Fs, dp: nat, ip: nat, off: nat, last: bool, ghost k: nat, ghost d: seq<byte>)
    requires Good(fs) && D.Is(fs, dp, d) && DirOk(d) && fs.inodes[dp].kind == D.T_DIR && fs.logged == {}
    requires ip != dp && ip < fs.lay.ninodes && fs.inodes[ip].nlink > 0 && fs.inodes[ip].kind != 0
    requires fs.inodes[ip].kind == D.T_DIR ==> fs.inodes[dp].nlink > 0
    requires off == DIRENT * k && Live(d, k)
    modifies fs
    ensures Good(fs) && DirOk(fs.File(dp)) && DirMap(fs.File(dp)) == DirMap(d) - {NameOf(Entry(d, k))}
    ensures fs.inodes[dp].nlink == old(fs.inodes)[dp].nlink - if old(fs.inodes)[ip].kind == D.T_DIR then 1 else 0
    ensures fs.inodes[ip] == Released(old(fs.inodes)[ip].(nlink := old(fs.inodes)[ip].nlink - 1), last)
    ensures Apart(old(D.Snapshot(fs)), D.Snapshot(fs), {dp, ip}) && |fs.logged| <= 4 + F.BitmapCount(fs.lay)
  {
    ghost var img0, s := D.Snapshot(fs), {dp, ip};
    ghost var inos := {fs.lay.InodeBlock(ip), fs.lay.InodeBlock(dp)};
    Begun(fs, s, inos);
    Leave(fs, dp, off, k, d, img0, s, inos, 0);
    assert fs.inodes[ip] == img0.inodes[ip];
    DropLinks(fs, dp, ip, last, img0, s, inos, 2);
    LogSize(fs.lay, fs.logged, inos, 2);
  }

  /** The link counts, once the name is gone. */
  method DropLinks(fs: F.Fs, dp: nat, ip: nat, last: bool, ghost img0: D.Image, ghost s: set<nat>, ghost inos: set<nat>,
                   ghost n: nat)
    requires Since(fs, img0, s, inos, n) && dp in s && ip in s && ip != dp && ip < fs.lay.ninodes && dp < fs.lay.ninodes
    requires fs.lay.InodeBlock(ip) in inos && fs.lay.InodeBlock(dp) in inos
    requires fs.inodes[ip].nlink > 0 && fs.inodes[ip].kind != 0 && fs.inodes[dp].kind != 0
    requires fs.inodes[ip].kind == D.T_DIR ==> fs.inodes[dp].nlink > 0
    modifies fs
    ensures Since(fs, img0, s, inos, n) && fs.File(dp) == old(fs.File(dp))
    ensures fs.inodes[dp].nlink == old(fs.inodes)[dp].nlink - if old(fs.inodes)[ip].kind == D.T_DIR then 1 else 0
    ensures fs.inodes[ip] == Released(old(fs.inodes)[ip].(nlink := old(fs.inodes)[ip].nlink - 1), last)
  {
    if fs.inodes[ip].kind == D.T_DIR {
      Relink(fs, dp, fs.inodes[dp].nlink - 1, img0, s, inos, n);
    }
    Relink(fs, ip, fs.inodes[ip].nlink - 1, img0, s, inos, n);
    ghost var img := D.Snapshot(fs);
    assert D.Bytes(img, dp) == old(fs.File(dp));
    Iput(fs, ip, last, img0, s, inos, n);
    assert D.Snapshot(fs).inodes[dp] == img.inodes[dp];
  }

  // ---- create ---------------------------------------------------------------------------------------

  lemma More(lay: Superblock, logged: set<nat>, inos: set<nat>, n: nat, n': nat)
    requires AtMost(lay, logged, inos, n) && n <= n'
    ensures AtMost(lay, logged, inos, n')
  {
    var data :| Logged(lay, logged, inos, data) && |data| <= n;
    assert Logged(lay, logged, inos, data) && |data| <= n';
  }

  /** The entries of a new directory. */
  ghost function Dots(ip: nat, dp: nat): map<Name, nat> {
    map[Pad(DOT) := ip, Pad(DOTDOT) := dp]
  }

  /** Directory dp is in order and is the map m. */
  ghost predicate Maps(fs: F.Fs, dp: nat, m: map<Name, nat>)
    reads fs
  {
    fs.Valid() && dp < fs.lay.ninodes && fs.inodes[dp].kind == D.T_DIR && DirOk(fs.File(dp)) && DirMap(fs.File(dp)) == m
  }

  method MakeDots(fs: F.Fs, ip: nat, dp: nat, ghost img0: D.Image, ghost s: set<nat>, ghost inos: set<nat>,
                  ghost n: nat)
    returns (ok: bool)
    requires Since(fs, img0, s, inos, n) && ip in s && 0 < ip < fs.lay.ninodes && fs.lay.InodeBlock(ip) in inos
    requires Maps(fs, ip, map[]) && fs.File(ip) == [] && 0 < dp < fs.lay.ninodes
    modifies fs
    ensures Since(fs, img0, s, inos, n + 4) && Apart(old(D.Snapshot(fs)), D.Snapshot(fs), {ip})
    ensures fs.inodes[ip].kind == D.T_DIR && fs.inodes[ip].nlink == old(fs.inodes)[ip].nlink
    ensures ok ==> Maps(fs, ip, Dots(ip, dp))
    ensures !ok ==> D.NoRoom(fs.lay, fs.blocks, 0)
  {
    ghost var img := D.Snapshot(fs);
    DotsCanonical();
    ok := Enter(fs, ip, DOT, ip, [], img0, s, inos, n);
    if ok {
      ghost var img1 := D.Snapshot(fs);
      ok := Enter(fs, ip, DOTDOT, dp, fs.File(ip), img0, s, inos, n + 2);
      ApartTrans(img, img1, D.Snapshot(fs), {ip});
    } else {
      More(fs.lay, fs.logged, inos, n + 2, n + 4);
    }
  }

  /** create, once it has the directory: an existing file is opened, if a file is wanted; otherwise a new inode with
      one link gets the name, and a directory its two entries.  Without an inode or room nothing is left of it. */
  method Create(fs: F.Fs, dp: nat, name: Name, kind: nat, ghost d: seq<byte>)
    returns (ip: nat, made: bool, ghost mid: D.Image, ghost j: nat)
    requires Good(fs) && D.Is(fs, dp, d) && DirOk(d) && fs.inodes[dp].kind == D.T_DIR && NoZero(name) && 0 < dp
    requires fs.logged == {} && (kind == D.T_DIR || kind == T_FILE || kind == T_DEVICE)
    modifies fs
    ensures Good(fs) && ip < fs.lay.ninodes && |fs.logged| <= 8 + F.BitmapCount(fs.lay)
    ensures var there := D.Value(DirMap(d), Pad(name));
            && there < fs.lay.ninodes
            && (there != 0 ==>
                  && !made && D.Snapshot(fs) == old(D.Snapshot(fs)) && fs.logged == {}
                  && ip == if kind == T_FILE && old(fs.inodes)[there].kind in {T_FILE, T_DEVICE} then there else 0)
            && (there == 0 ==> (made <==> ip != 0))
    ensures made ==> old(fs.inodes)[ip].kind == 0 && Created(fs, ip, dp, kind)
                     && Maps(fs, dp, DirMap(d)[Pad(name) := ip])
                     && fs.inodes[dp].nlink == old(fs.inodes)[dp].nlink + (if kind == D.T_DIR then 1 else 0)
                     && Apart(old(D.Snapshot(fs)), D.Snapshot(fs), {dp, ip})
    ensures !made ==> Maps(fs, dp, DirMap(d)) && fs.inodes[dp].nlink == old(fs.inodes)[dp].nlink
                      && Apart(old(D.Snapshot(fs)), D.Snapshot(fs), {dp})
    ensures !made && Pad(name) !in DirMap(d) ==>
              NoInode(old(fs.inodes)) || Stuck(fs.lay, old(D.Snapshot(fs)), mid, dp, j, |d|)
  {
    var there := Lookup(fs, dp, name, d);
    mid, j := D.Snapshot(fs), 0;
    if there != 0 {
      made := false;
      ip := if kind == T_FILE && fs.inodes[there].kind in {T_FILE, T_DEVICE} then there else 0;
    } else {
      ip, made, mid, j := MakeNew(fs, dp, name, kind, d);
    }
  }

  method Lookup(fs: F.Fs, dp: nat, name: Name, ghost d: seq<byte>) returns (there: nat)
    requires Good(fs) && D.Is(fs, dp, d) && DirOk(d) && fs.inodes[dp].kind == D.T_DIR && NoZero(name)
    modifies fs
    ensures Good(fs) && D.Is(fs, dp, d) && D.Snapshot(fs) == old(D.Snapshot(fs)) && fs.logged == old(fs.logged)
    ensures there == D.Value(DirMap(d), Pad(name)) < fs.lay.ninodes && (there == 0 ==> Pad(name) !in DirMap(d))
    ensures Maps(fs, dp, DirMap(d)) && Apart(old(D.Snapshot(fs)), D.Snapshot(fs), {dp})
  {
    assert D.OneDirOk(D.Snapshot(fs), dp);
    var off;
    ghost var k;
    there, off, k := D.Dirlookup(fs, dp, name, d);
    if there == 0 {
      D.Absent(d, Pad(name));
    }
  }

  /** create of a name that is not there. */
  method MakeNew(fs: F.Fs, dp: nat, name: Name, kind: nat, ghost d: seq<byte>)
    returns (ip: nat, made: bool, ghost mid: D.Image, ghost j: nat)
    requires Good(fs) && D.Is(fs, dp, d) && DirOk(d) && fs.inodes[dp].kind == D.T_DIR && NoZero(name) && 0 < dp
    requires fs.logged == {} && kind != 0 && Pad(name) !in DirMap(d)
    modifies fs
    ensures Good(fs) && ip < fs.lay.ninodes && |fs.logged| <= 8 + F.BitmapCount(fs.lay) && (made <==> ip != 0)
    ensures made ==> old(fs.inodes)[ip].kind == 0 && Created(fs, ip, dp, kind)
                     && Maps(fs, dp, DirMap(d)[Pad(name) := ip])
                     && fs.inodes[dp].nlink == old(fs.inodes)[dp].nlink + (if kind == D.T_DIR then 1 else 0)
                     && Apart(old(D.Snapshot(fs)), D.Snapshot(fs), {dp, ip})
    ensures !made ==> Maps(fs, dp, DirMap(d)) && fs.inodes[dp].nlink == old(fs.inodes)[dp].nlink
                      && Apart(old(D.Snapshot(fs)), D.Snapshot(fs), {dp})
    ensures !made ==> NoInode(old(fs.inodes)) || Stuck(fs.lay, old(D.Snapshot(fs)), mid, dp, j, |d|)
  {
    ghost var img0 := D.Snapshot(fs);
    ip := Ialloc(fs, kind);
    mid, j := img0, ip;
    if ip == 0 { return 0, false, mid, j; }
    AllocApart(img0, D.Snapshot(fs), ip, {dp, ip});
    made, mid := Fill(fs, dp, name, ip, kind, d, img0);
    if !made {
      ip := 0;
      BackToFree(img0, D.Snapshot(fs), dp, j);
    }
  }

  ghost predicate NoInode(inodes: seq<Inode>) {
    forall j :: 0 < j < |inodes| ==> inodes[j].kind != 0
  }

  lemma AllocApart(img0: D.Image, img: D.Image, ip: nat, s: set<nat>)
    requires ip < |img0.inodes| && ip in s && ip < |img.inodes|
    requires img == img0.(inodes := img0.inodes[ip := img.inodes[ip]])
    ensures Apart(img0, img, s)
  {
    forall j | 0 <= j < |img.inodes| && j !in s
      ensures img.inodes[j] == img0.inodes[j] && D.Bytes(img, j) == D.Bytes(img0, j)
    {
    }
  }

  /** The new inode. */
  ghost predicate Created(fs: F.Fs, ip: nat, dp: nat, kind: nat)
    reads fs
  {
    && fs.Valid() && ip < fs.lay.ninodes && fs.inodes[ip].kind == kind && fs.inodes[ip].nlink == 1
    && (if kind == D.T_DIR then Maps(fs, ip, Dots(ip, dp)) else fs.File(ip) == [])
  }

  lemma BackToFree(img0: D.Image, img: D.Image, dp: nat, ip: nat)
    requires Apart(img0, img, {dp, ip}) && FreeEmpty(img0.inodes) && ip < |img0.inodes| && img0.inodes[ip].kind == 0
    requires img.inodes[ip] == Inode(0, 0, 0, Zeros())
    ensures Apart(img0, img, {dp})
  {
  }

  /** create had come as far as mid, where only its directory and the new inode differ, and there was no room. */
  ghost predicate Stuck(lay: Superblock, img0: D.Image, mid: D.Image, dp: nat, ip: nat, n: nat) {
    && Apart(img0, mid, {dp, ip}) && D.NoRoom(lay, mid.blocks, n)
    && exists owner :: Consistent(lay, mid.blocks, mid.inodes, mid.ptr, owner, 0, lay.ninodes)
  }

  /** create from ilock of the new inode on. */
  method Fill(fs: F.Fs, dp: nat, name: Name, ip: nat, kind: nat, ghost d: seq<byte>, ghost img0: D.Image)
    returns (made: bool, ghost mid: D.Image)
    requires Good(fs) && D.Is(fs, dp, d) && DirOk(d) && fs.inodes[dp].kind == D.T_DIR && NoZero(name) && 0 < dp
    requires 0 < ip < fs.lay.ninodes && ip != dp && kind != 0 && fs.inodes[ip] == Inode(kind, 0, 0, Zeros())
    requires Apart(img0, D.Snapshot(fs), {dp, ip}) && fs.logged == {fs.lay.InodeBlock(ip)}
    requires Pad(name) !in DirMap(d)
    modifies fs
    ensures Good(fs) && Apart(img0, D.Snapshot(fs), {dp, ip}) && |fs.logged| <= 8 + F.BitmapCount(fs.lay)
    ensures made ==> Created(fs, ip, dp, kind) && Maps(fs, dp, DirMap(d)[Pad(name) := ip])
                     && fs.inodes[dp].nlink == old(fs.inodes)[dp].nlink + if kind == D.T_DIR then 1 else 0
    ensures !made ==> fs.inodes[ip] == Inode(0, 0, 0, Zeros()) && Maps(fs, dp, DirMap(d))
                      && fs.inodes[dp].nlink == old(fs.inodes)[dp].nlink
    ensures !made ==> Stuck(fs.lay, img0, mid, dp, ip, |d|)
  {
    ghost var s, inos := {dp, ip}, {fs.lay.InodeBlock(ip), fs.lay.InodeBlock(dp)};
    NothingLogged(fs.lay, inos);
    LogInode(fs.lay, {}, fs.logged, inos, fs.lay.InodeBlock(ip), 0);
    Relink(fs, ip, 1, img0, s, inos, 0);
    made := Populate(fs, dp, name, ip, kind, d, img0, s, inos);
    mid := D.Snapshot(fs);
    if made {
      if kind == D.T_DIR {
        Relink(fs, dp, fs.inodes[dp].nlink + 1, img0, s, inos, 6);
      }
    } else {
      Undo(fs, ip, dp, img0, s, inos);
    }
    LogSize(fs.lay, fs.logged, inos, 6);
  }

  /** create's way out. */
  method Undo(fs: F.Fs, ip: nat, ghost dp: nat, ghost img0: D.Image, ghost s: set<nat>, ghost inos: set<nat>)
    requires Since(fs, img0, s, inos, 6) && ip in s && ip < fs.lay.ninodes && fs.lay.InodeBlock(ip) in inos
    requires fs.inodes[ip].kind != 0 && dp < fs.lay.ninodes && dp != ip
    modifies fs
    ensures Since(fs, img0, s, inos, 6) && fs.inodes[ip] == Inode(0, 0, 0, Zeros())
    ensures fs.inodes[dp] == old(fs.inodes)[dp] && fs.File(dp) == old(fs.File(dp))
  {
    Relink(fs, ip, 0, img0, s, inos, 6);
    ghost var img := D.Snapshot(fs);
    assert D.Bytes(img, dp) == old(fs.File(dp));
    Iput(fs, ip, true, img0, s, inos, 6);
    assert D.Snapshot(fs).inodes[dp] == img.inodes[dp];
  }

  /** The entries that create makes. */
  method Populate(fs: F.Fs, dp: nat, name: Name, ip: nat, kind: nat, ghost d: seq<byte>, ghost img0: D.Image,
                  ghost s: set<nat>, ghost inos: set<nat>)
    returns (ok: bool)
    requires Since(fs, img0, s, inos, 0) && dp in s && ip in s
    requires fs.lay.InodeBlock(ip) in inos && fs.lay.InodeBlock(dp) in inos
    requires D.Is(fs, dp, d) && DirOk(d) && fs.inodes[dp].kind == D.T_DIR && NoZero(name) && 0 < dp
    requires 0 < ip < fs.lay.ninodes && ip != dp && kind != 0 && fs.inodes[ip] == Inode(kind, 1, 0, Zeros())
    requires Pad(name) !in DirMap(d)
    modifies fs
    ensures Since(fs, img0, s, inos, 6) && fs.inodes[ip].kind == kind && fs.inodes[ip].nlink == 1
    ensures ok ==> Created(fs, ip, dp, kind)
    ensures Maps(fs, dp, if ok then DirMap(d)[Pad(name) := ip] else DirMap(d))
    ensures fs.inodes[dp].nlink == old(fs.inodes)[dp].nlink
    ensures !ok ==> D.NoRoom(fs.lay, fs.blocks, |d|)
  {
    ghost var img := D.Snapshot(fs);
    ok := Begin(fs, dp, ip, kind, img0, s, inos);
    assert D.Snapshot(fs).inodes[dp] == img.inodes[dp];
    if ok {
      ghost var img1 := D.Snapshot(fs);
      ok := Enter(fs, dp, name, ip, d, img0, s, inos, 4);
      assert D.Snapshot(fs).inodes[ip] == img1.inodes[ip];
    } else {
      More(fs.lay, fs.logged, inos, 4, 6);
    }
  }

  /** The entries of a new directory, if it is one. */
  method Begin(fs: F.Fs, dp: nat, ip: nat, kind: nat, ghost img0: D.Image, ghost s: set<nat>, ghost inos: set<nat>)
    returns (ok: bool)
    requires Since(fs, img0, s, inos, 0) && ip in s && fs.lay.InodeBlock(ip) in inos && 0 < dp < fs.lay.ninodes
    requires 0 < ip < fs.lay.ninodes && kind != 0 && fs.inodes[ip] == Inode(kind, 1, 0, Zeros())
    modifies fs
    ensures Since(fs, img0, s, inos, 4) && Apart(old(D.Snapshot(fs)), D.Snapshot(fs), {ip})
    ensures fs.inodes[ip].kind == kind && fs.inodes[ip].nlink == 1
    ensures ok ==> Created(fs, ip, dp, kind)
    ensures !ok ==> D.NoRoom(fs.lay, fs.blocks, 0)
  {
    ok := true;
    if kind == D.T_DIR {
      EmptyDir(fs.File(ip));
      ok := MakeDots(fs, ip, dp, img0, s, inos, 0);
    } else {
      More(fs.lay, fs.logged, inos, 0, 4);
    }
  }

  // ---- mkfs ------------------------------------------------------------------------------------------

  /** The image that mkfs begins with: a root directory and nothing else.  There is none only if there is no room. */
  method Mkfs(lay: Superblock) returns (fs: F.Fs, ok: bool)
    requires lay.Ok() && 2 <= lay.ninodes <= 65536
    ensures fresh(fs) && fs.lay == lay && Good(fs)
    ensures forall i :: 0 <= i < lay.ninodes && i != D.ROOTINO ==> fs.inodes[i] == Inode(0, 0, 0, Zeros())
    ensures ok ==> Maps(fs, D.ROOTINO, Dots(D.ROOTINO, D.ROOTINO)) && fs.inodes[D.ROOTINO].nlink == 1
    ensures !ok ==> D.NoRoom(lay, fs.blocks, 0)
  {
    fs := new F.Fs(lay);
    BlankGood(fs);
    ghost var img0 := D.Snapshot(fs);
    assert img0.inodes[D.ROOTINO].kind == 0;
    var root := Ialloc(fs, D.T_DIR);
    ok := MakeRoot(fs, root, img0);
    forall i | 0 <= i < lay.ninodes && i != root ensures fs.inodes[i] == Inode(0, 0, 0, Zeros()) {
      assert D.Snapshot(fs).inodes[i] == img0.inodes[i];
    }
  }

  /** The root directory is its own parent. */
  method MakeRoot(fs: F.Fs, root: nat, ghost img0: D.Image) returns (ok: bool)
    requires Good(fs) && 0 < root < fs.lay.ninodes && fs.inodes[root] == Inode(D.T_DIR, 0, 0, Zeros())
    requires |img0.inodes| == fs.lay.ninodes
             && D.Snapshot(fs) == img0.(inodes := img0.inodes[root := Inode(D.T_DIR, 0, 0, Zeros())])
    requires fs.logged == {fs.lay.InodeBlock(root)}
    modifies fs
    ensures Good(fs) && Apart(img0, D.Snapshot(fs), {root})
    ensures ok ==> Maps(fs, root, Dots(root, root)) && fs.inodes[root].nlink == 1
    ensures !ok ==> D.NoRoom(fs.lay, fs.blocks, 0)
  {
    ghost var inos := {fs.lay.InodeBlock(root)};
    AllocApart(img0, D.Snapshot(fs), root, {root});
    NothingLogged(fs.lay, inos);
    LogInode(fs.lay, {}, fs.logged, inos, fs.lay.InodeBlock(root), 0);
    Relink(fs, root, 1, img0, {root}, inos, 0);
    EmptyDir(fs.File(root));
    ok := MakeDots(fs, root, root, img0, {root}, inos, 0);
  }

  lemma BlankGood(fs: F.Fs)
    requires fs.Valid() && fs.Synced() && fs.ptr == map[] && fs.lay.ninodes <= 65536
    requires forall i :: 0 <= i < fs.lay.ninodes ==> fs.inodes[i].kind == 0 && fs.inodes[i].nlink == 0
                                                     && fs.inodes[i].size == 0
    ensures Good(fs)
  {
    forall i | 0 <= i < fs.lay.ninodes ensures fs.inodes[i] == Inode(0, 0, 0, Zeros()) {
      assert Represents(fs.lay, fs.blocks, fs.inodes[i], fs.ptr, i);
      NoAddresses(fs.lay, fs.blocks, fs.inodes[i], fs.ptr, fs.ptr, i);
    }
  }

  // ---- The other operations -------------------------------------------------------------------------

  /** The operations of close, chdir and exit: iput alone. */
  method PutAway(fs: F.Fs, i: nat, last: bool)
    requires Good(fs) && i < fs.lay.ninodes && fs.logged == {}
    modifies fs
    ensures Good(fs) && Apart(old(D.Snapshot(fs)), D.Snapshot(fs), {i})
    ensures fs.inodes[i] == Released(old(fs.inodes)[i], last) && |fs.logged| <= 1 + F.BitmapCount(fs.lay)
  {
    ghost var inos := {fs.lay.InodeBlock(i)};
    Begun(fs, {i}, inos);
    Iput(fs, i, last, D.Snapshot(fs), {i}, inos, 0);
    LogSize(fs.lay, fs.logged, inos, 0);
  }

  /** sys_open with O_TRUNC, of a file that exists. */
  method Truncate(fs: F.Fs, i: nat)
    requires Good(fs) && i < fs.lay.ninodes && fs.inodes[i].kind == T_FILE && fs.logged == {}
    modifies fs
    ensures Good(fs) && fs.File(i) == [] && Apart(old(D.Snapshot(fs)), D.Snapshot(fs), {i})
    ensures fs.inodes[i].kind == T_FILE && fs.inodes[i].nlink == old(fs.inodes)[i].nlink
    ensures |fs.logged| <= 1 + F.BitmapCount(fs.lay)
  {
    ghost var img, inos := D.Snapshot(fs), {fs.lay.InodeBlock(i)};
    NothingLogged(fs.lay, inos);
    fs.Itrunc(i);
    LogInode(fs.lay, {}, fs.logged, inos, fs.lay.InodeBlock(i), 0);
    LogSize(fs.lay, fs.logged, inos, 0);
    D.DirsKept(img, D.Snapshot(fs), i);
    ApartOne(img, D.Snapshot(fs), i, {i});
  }

  /** On a disk with one bitmap block all of them are within the exact budget of the log. */
  lemma WithinBudget(lay: Superblock, n: nat)
    requires lay.size <= BPB && n <= 8 + F.BitmapCount(lay)
    ensures n <= LogSpec.MAXOPBLOCKS - 1
  {
  }
}
