/** Block allocation and file contents (kernel/fs.c): balloc, bfree, bmap, readi, writei and itrunc,
proved against flat byte sequences, one for each file. */
module Fs {
  import opened ByteString
  import opened DiskBytes
  import opened FsSpec
  import LogSpec

  ghost function Span(lo: nat, hi: nat): (r: set<nat>)
    ensures forall x :: x in r <==> lo <= x < hi
    ensures lo <= hi ==> |r| == hi - lo
    decreases hi
  {
    if hi <= lo then {} else Span(lo, hi - 1) + {hi - 1}
  }

  /** The bitmap blocks that hold the bit of a block. */
  ghost function Bitmaps(lay: Superblock): set<nat> {
    Span(lay.bmapstart, lay.bmapstart + BitmapCount(lay))
  }

  function BitmapCount(lay: Superblock): nat {
    (lay.size + BPB - 1) / BPB
  }

  lemma InBitmaps(lay: Superblock, b: nat)
    requires b < lay.size
    ensures lay.BitmapBlock(b) in Bitmaps(lay)
  {
    assert b / BPB < BitmapCount(lay);
  }

  /** Only file i has gained blocks, and what it gained is zeroed; all other inodes are the same, and i
      differs in its addresses only. */
  ghost predicate Extended(blocks: seq<ByteBlock>, inodes: seq<Inode>, ptr: Ptrs, blocks': seq<ByteBlock>,
                           inodes': seq<Inode>, ptr': Ptrs, i: nat) {
    && SameData(blocks, blocks', ptr, ptr') && i < |inodes| == |inodes'|
    && inodes' == inodes[i := inodes[i].(addrs := inodes'[i].addrs)]
    && (forall s :: s in ptr ==> s in ptr' && ptr'[s] == ptr[s])
    && (forall s :: s in ptr' && s !in ptr ==> s.inum == i
                                               && (s.index < MAXFILE && ptr'[s] < |blocks'| ==>
                                                     blocks'[ptr'[s]] == Zeroed()))
  }

  /** The blocks before n are all marked; with n == size, the disk is full. */
  ghost predicate UsedBelow(lay: Superblock, blocks: seq<ByteBlock>, n: nat)
    requires BlocksOk(lay, blocks) && n <= lay.size
  {
    forall x :: 0 <= x < n ==> Used(lay, blocks, x)
  }

  lemma SameBitmap(lay: Superblock, blocks: seq<ByteBlock>, base: nat, bi: nat)
    requires BlocksOk(lay, blocks) && base % BPB == 0 && bi < BPB && base + bi < lay.size
    ensures lay.BitmapBlock(base) < lay.size && (Used(lay, blocks, base + bi) <==>
                                                   BitAt(blocks[lay.BitmapBlock(base)], bi))
  {
    BitmapRange(lay, base);
    assert lay.BitmapBlock(base + bi) == lay.BitmapBlock(base) && (base + bi) % BPB == bi;
  }

  // ---- Overwriting part of a file -----------------------------------------------------------------

  /** c with the bytes from off on replaced by d, and extended if d goes beyond its end. */
  function Overlay(c: seq<byte>, off: nat, d: seq<byte>): (r: seq<byte>)
    requires off <= |c|
    ensures |r| == Max(|c|, off + |d|)
  {
    c[..off] + d + if off + |d| < |c| then c[off + |d|..] else []
  }

  lemma OverlayMore(c: seq<byte>, off: nat, d: seq<byte>, e: seq<byte>)
    requires off <= |c|
    ensures Overlay(Overlay(c, off, d), off + |d|, e) == Overlay(c, off, d + e)
  {
  }

  function Max(a: int, b: int): int {
    if a < b then b else a
  }

  /** Every slot below sz bytes has its block. */
  ghost predicate Covered(ptr: Ptrs, i: nat, sz: nat) {
    forall k :: 0 <= k && k * BSIZE < sz ==> Slot(i, k) in ptr
  }

  /** Allocation does not change the bytes of a file. */
  lemma ContentsKept(lay: Superblock, blocks: seq<ByteBlock>, ptr: Ptrs, owner: Owners, blocks': seq<ByteBlock>,
                     ptr': Ptrs, i: nat, sz: nat)
    requires Linked(lay, ptr, owner) && |blocks| == lay.size && SameData(blocks, blocks', ptr, ptr')
    requires Covered(ptr, i, sz) && sz <= MAXFILE * BSIZE
    ensures Contents(blocks', ptr', i, sz) == Contents(blocks, ptr, i, sz)
  {
    forall o | 0 <= o < sz ensures Contents(blocks', ptr', i, sz)[o] == Contents(blocks, ptr, i, sz)[o] {
      assert o / BSIZE * BSIZE < sz;
      assert Slot(i, o / BSIZE) in ptr;
    }
  }

  /** Storing a chunk into its block overwrites those bytes of the file, and no other byte of any file. */
  lemma ChunkWritten(lay: Superblock, blocks: seq<ByteBlock>, ptr: Ptrs, owner: Owners, i: nat, sz: nat, o: nat,
                     chunk: seq<byte>)
    requires BlocksOk(lay, blocks) && Linked(lay, ptr, owner) && Covered(ptr, i, sz) && o <= sz <= MAXFILE * BSIZE
    requires 0 < |chunk| && o % BSIZE + |chunk| <= BSIZE && Slot(i, o / BSIZE) in ptr
    ensures var b := ptr[Slot(i, o / BSIZE)];
            && b < lay.size
            && Contents(blocks[b := Splice(blocks[b], o % BSIZE, chunk)], ptr, i, Max(sz, o + |chunk|))
               == Overlay(Contents(blocks, ptr, i, sz), o, chunk)
  {
    var b := ptr[Slot(i, o / BSIZE)];
    var blocks' := blocks[b := Splice(blocks[b], o % BSIZE, chunk)];
    var after, spec := Contents(blocks', ptr, i, Max(sz, o + |chunk|)), Overlay(Contents(blocks, ptr, i, sz), o, chunk);
    forall x | 0 <= x < |after| ensures after[x] == spec[x] {
      ByteWritten(lay, blocks, ptr, owner, i, sz, o, chunk, x);
    }
  }

  lemma ByteWritten(lay: Superblock, blocks: seq<ByteBlock>, ptr: Ptrs, owner: Owners, i: nat, sz: nat, o: nat,
                    chunk: seq<byte>, x: nat)
    requires BlocksOk(lay, blocks) && Linked(lay, ptr, owner) && Covered(ptr, i, sz) && o <= sz <= MAXFILE * BSIZE
    requires 0 < |chunk| && o % BSIZE + |chunk| <= BSIZE && Slot(i, o / BSIZE) in ptr && x < Max(sz, o + |chunk|)
    ensures var b := ptr[Slot(i, o / BSIZE)];
            b < lay.size && ByteAt(blocks[b := Splice(blocks[b], o % BSIZE, chunk)], Get(ptr, Slot(i, x / BSIZE)),
                                   x % BSIZE)
            == if o <= x < o + |chunk| then chunk[x - o] else ByteAt(blocks, Get(ptr, Slot(i, x / BSIZE)), x % BSIZE)
  {
    var b := ptr[Slot(i, o / BSIZE)];
    if x / BSIZE == o / BSIZE {
      assert x - o == x % BSIZE - o % BSIZE;
    } else {
      assert Slot(i, x / BSIZE) in ptr by {
        assert !(o <= x < o + |chunk|);
        assert x / BSIZE * BSIZE < sz;
      }
      assert owner[b] != Slot(i, x / BSIZE);
    }
  }

  /** The data of all files but i is as before. */
  ghost predicate Others(blocks0: seq<ByteBlock>, ptr0: Ptrs, blocks: seq<ByteBlock>, ptr: Ptrs, i: nat) {
    |blocks| == |blocks0| &&
    forall s :: s in ptr0 && s.inum != i && s.index < MAXFILE && ptr0[s] < |blocks| ==>
      s in ptr && ptr[s] == ptr0[s] && blocks[ptr0[s]] == blocks0[ptr0[s]]
  }

  lemma OthersStill(lay: Superblock, blocks0: seq<ByteBlock>, ptr0: Ptrs, blocks: seq<ByteBlock>, ptr: Ptrs,
                    owner: Owners, blocks': seq<ByteBlock>, ptr': Ptrs, i: nat)
    requires Others(blocks0, ptr0, blocks, ptr, i) && SameData(blocks, blocks', ptr, ptr')
    ensures Others(blocks0, ptr0, blocks', ptr', i)
  {
  }

  lemma OthersWritten(lay: Superblock, blocks0: seq<ByteBlock>, ptr0: Ptrs, blocks: seq<ByteBlock>, ptr: Ptrs,
                      owner: Owners, i: nat, s: Slot, block: ByteBlock)
    requires Others(blocks0, ptr0, blocks, ptr, i) && Linked(lay, ptr, owner) && s in ptr && s.inum == i
             && ptr[s] < |blocks|
    ensures Others(blocks0, ptr0, blocks[ptr[s] := block], ptr, i)
  {
    forall t | t in ptr0 && t.inum != i && t.index < MAXFILE && ptr0[t] < |blocks|
      ensures blocks[ptr[s] := block][ptr0[t]] == blocks0[ptr0[t]]
    {
      assert owner[ptr[t]] == t;
    }
  }

  lemma CoveredMore(ptr: Ptrs, i: nat, sz: nat, o: nat, m: nat)
    requires Covered(ptr, i, sz) && o <= sz && Slot(i, o / BSIZE) in ptr && o % BSIZE + m <= BSIZE
    ensures Covered(ptr, i, Max(sz, o + m))
  {
    forall k | 0 <= k && k * BSIZE < Max(sz, o + m) ensures Slot(i, k) in ptr {
      if k * BSIZE >= sz {
        assert k == o / BSIZE;
      }
    }
  }

  lemma IndirectWord(lay: Superblock, blocks: seq<ByteBlock>, ino: Inode, ptr: Ptrs, i: nat, j: nat)
    requires BlocksOk(lay, blocks) && Represents(lay, blocks, ino, ptr, i) && j < NINDIRECT && ino.addrs[NDIRECT] != 0
    ensures Word(blocks[ino.addrs[NDIRECT]], j) == Get(ptr, Slot(i, NDIRECT + j))
  {
    assert Get(ptr, Slot(i, NDIRECT + j)) == Indirect(lay, blocks, ino.addrs[NDIRECT], j);
  }

  /** The indirect block's words are the pointers beyond the direct ones. */
  lemma EntryIs(lay: Superblock, blocks: seq<ByteBlock>, ino: Inode, ptr: Ptrs, owner: Owners, i: nat, j: nat, ind: nat)
    requires BlocksOk(lay, blocks) && Linked(lay, ptr, owner) && Represents(lay, blocks, ino, ptr, i) && j < NINDIRECT
    requires Slot(i, MAXFILE) in ptr && ind == ptr[Slot(i, MAXFILE)]
    ensures ind < lay.size && Word(blocks[ind], j) == Get(ptr, Slot(i, NDIRECT + j))
    ensures Get(ptr, Slot(i, NDIRECT + j)) == 0 ==> Slot(i, NDIRECT + j) !in ptr
  {
    assert Get(ptr, Slot(i, NDIRECT + j)) == Indirect(lay, blocks, ind, j);
  }

  /** Inode i holds the file with `src` written over it at `off`. */
  ghost predicate Overlaid(blocks: seq<ByteBlock>, ptr: Ptrs, i: nat, file: seq<byte>, off: nat, src: seq<byte>)
    requires off <= |file|
  {
    Covered(ptr, i, Max(|file|, off + |src|)) && Contents(blocks, ptr, i, Max(|file|, off + |src|))
      == Overlay(file, off, src)
  }

  /** memmove of `chunk` into block `b`, at file offset `o`. */
  function Copied(b: ByteBlock, o: nat, chunk: seq<byte>): (r: ByteBlock)
    requires IsBlock(b) && o % BSIZE + |chunk| <= BSIZE
    ensures IsBlock(r)
  {
    Splice(b, o % BSIZE, chunk)
  }

  /** From the state with index 0, `src` has been written to the file of inode i at `off`: the other
      inodes and files are as before, and what was logged is accounted for. */
  ghost predicate SoFar(lay: Superblock, blocks0: seq<ByteBlock>, inodes0: seq<Inode>, ptr0: Ptrs, logged0: set<nat>,
                        blocks: seq<ByteBlock>, inodes: seq<Inode>, ptr: Ptrs, logged: set<nat>, i: nat,
                        file: seq<byte>, off: nat, src: seq<byte>, data: set<nat>)
  {
    && i < lay.ninodes == |inodes0| == |inodes| && inodes == inodes0[i := inodes0[i].(addrs := inodes[i].addrs)]
    && |file| == inodes0[i].size && off <= |file| && off + |src| <= MAXFILE * BSIZE
    && Overlaid(blocks, ptr, i, file, off, src)
    && Others(blocks0, ptr0, blocks, ptr, i)
    && Accounted(lay, logged0, logged, data, Get(ptr, Slot(i, MAXFILE)))
  }

  lemma WroteChunk(lay: Superblock, blocks0: seq<ByteBlock>, inodes0: seq<Inode>, ptr0: Ptrs, logged0: set<nat>,
                   blocks: seq<ByteBlock>, inodes: seq<Inode>, ptr: Ptrs, owner: Owners, logged: set<nat>, i: nat,
                   file: seq<byte>, off: nat, src: seq<byte>, chunk: seq<byte>, data: set<nat>, addr: nat)
    requires SoFar(lay, blocks0, inodes0, ptr0, logged0, blocks, inodes, ptr, logged, i, file, off, src, data)
    requires BlocksOk(lay, blocks) && Linked(lay, ptr, owner) && |file| <= MAXFILE * BSIZE
             && off + |src| + |chunk| <= MAXFILE * BSIZE
    requires 0 < |chunk| && (off + |src|) % BSIZE + |chunk| <= BSIZE && addr in data
    requires addr != 0 && addr == Get(ptr, Slot(i, (off + |src|) / BSIZE))
    ensures var s := Slot(i, (off + |src|) / BSIZE); s in ptr && s.index < MAXFILE && ptr[s] == addr < lay.size
    ensures SoFar(lay, blocks0, inodes0, ptr0, logged0, blocks[addr := Copied(blocks[addr], off + |src|, chunk)],
                  inodes, ptr,
                  logged + {addr}, i, file, off, src + chunk, data)
  {
    WroteMore(lay, blocks, ptr, owner, i, file, off, src, chunk);
    OthersWritten(lay, blocks0, ptr0, blocks, ptr, owner, i, Slot(i, (off + |src|) / BSIZE),
                  Copied(blocks[addr], off + |src|, chunk));
    AccountedIn(lay, logged0, logged, data, Get(ptr, Slot(i, MAXFILE)), addr);
  }

  lemma WroteMore(lay: Superblock, blocks: seq<ByteBlock>, ptr: Ptrs, owner: Owners, i: nat, file: seq<byte>, off: nat,
                  src: seq<byte>, chunk: seq<byte>)
    requires BlocksOk(lay, blocks) && Linked(lay, ptr, owner) && off <= |file|
    requires Overlaid(blocks, ptr, i, file, off, src)
    requires 0 < |chunk| && (off + |src|) % BSIZE + |chunk| <= BSIZE && Get(ptr, Slot(i, (off + |src|) / BSIZE)) != 0
    requires Max(|file|, off + |src|) <= MAXFILE * BSIZE && off + |src| + |chunk| <= MAXFILE * BSIZE
    ensures var s := Slot(i, (off + |src|) / BSIZE);
            && s in ptr && s.index < MAXFILE && ptr[s] < lay.size
            && Overlaid(blocks[ptr[s] := Copied(blocks[ptr[s]], off + |src|, chunk)], ptr, i, file, off, src + chunk)
  {
    var o, sz := off + |src|, Max(|file|, off + |src|);
    ChunkWritten(lay, blocks, ptr, owner, i, sz, o, chunk);
    OverlayMore(file, off, src, chunk);
    CoveredMore(ptr, i, sz, o, |chunk|);
    assert Max(sz, o + |chunk|) == Max(|file|, off + |src + chunk|);
  }

  /** Besides the bitmap and the indirect block `ind`, only blocks in `data` have been logged. */
  ghost predicate Accounted(lay: Superblock, logged0: set<nat>, logged: set<nat>, data: set<nat>, ind: nat) {
    logged <= logged0 + Bitmaps(lay) + data + ({ind} - {0})
  }

  lemma AccountedIn(lay: Superblock, logged0: set<nat>, logged: set<nat>, data: set<nat>, ind: nat, b: nat)
    requires Accounted(lay, logged0, logged, data, ind) && b in data
    ensures Accounted(lay, logged0, logged + {b}, data, ind)
  {
  }

  /** writei refuses to leave a hole, to wrap around, or to exceed the largest file. */
  predicate Refused(ino: Inode, off: nat, n: nat) {
    off > ino.size || off + n >= 0x1_0000_0000 || off + n > MAXFILE * BSIZE
  }

  /** How many blocks n bytes from off on touch. */
  function Touched(off: nat, n: nat): nat {
    if n == 0 then 0 else (off + n - 1) / BSIZE - off / BSIZE + 1
  }

  /** Every turn of the loop ends at a block boundary or at the end. */
  ghost predicate Turns(off: nat, tot: nat, n: nat, turns: nat) {
    && tot <= n && turns <= Touched(off, tot)
    && (0 < tot < n ==> (off + tot) % BSIZE == 0)
  }

  lemma NextTurn(off: nat, tot: nat, n: nat, turns: nat, m: nat)
    requires Turns(off, tot, n, turns) && tot < n && m == Min(n - tot, BSIZE - (off + tot) % BSIZE)
    ensures 0 < m && Turns(off, tot + m, n, turns + 1) && turns + 1 <= Touched(off, n)
  {
    var o := off + tot;
    assert (o + m - 1) / BSIZE == o / BSIZE;
    assert tot > 0 ==> (o - 1) / BSIZE == o / BSIZE - 1;
    assert (off + n - 1) / BSIZE >= o / BSIZE;
  }

  lemma TakeMore(src: seq<byte>, tot: nat, m: nat)
    requires tot + m <= |src|
    ensures src[..tot] + src[tot..tot + m] == src[..tot + m]
  {
  }

  lemma StartWriting(lay: Superblock, blocks: seq<ByteBlock>, inodes: seq<Inode>, ptr: Ptrs, owner: Owners, i: nat,
                     off: nat)
    requires Consistent(lay, blocks, inodes, ptr, owner, 0, lay.ninodes) && i < lay.ninodes && off <= inodes[i].size
    ensures Covered(ptr, i, inodes[i].size) && inodes[i].size <= MAXFILE * BSIZE
    ensures var file := Contents(blocks, ptr, i, inodes[i].size); Overlay(file, off, []) == file
    ensures inodes == inodes[i := inodes[i].(addrs := inodes[i].addrs)] && Others(blocks, ptr, blocks, ptr, i)
  {
    assert Represents(lay, blocks, inodes[i], ptr, i);
  }

  /** ip->size = size, once every block below it is there. */
  lemma SizeConsistent(lay: Superblock, blocks: seq<ByteBlock>, inodes: seq<Inode>, ptr: Ptrs, owner: Owners, i: nat,
                       size: nat)
    requires Consistent(lay, blocks, inodes, ptr, owner, 0, lay.ninodes) && i < lay.ninodes
    requires Covered(ptr, i, size) && size <= MAXFILE * BSIZE
    ensures Consistent(lay, blocks, inodes[i := inodes[i].(size := size)], ptr, owner, 0, lay.ninodes)
  {
    var inodes' := inodes[i := inodes[i].(size := size)];
    forall k | 0 <= k < lay.ninodes ensures Represents(lay, blocks, inodes'[k], ptr, k) {
      assert Represents(lay, blocks, inodes[k], ptr, k);
    }
  }

  /** The files other than i still have the same bytes. */
  lemma RestStays(lay: Superblock, blocks0: seq<ByteBlock>, inodes0: seq<Inode>, ptr0: Ptrs, owner0: Owners,
                  blocks: seq<ByteBlock>, inodes: seq<Inode>, ptr: Ptrs, i: nat)
    requires Consistent(lay, blocks0, inodes0, ptr0, owner0, 0, lay.ninodes) && i < lay.ninodes
    requires Others(blocks0, ptr0, blocks, ptr, i) && |inodes| == |inodes0| && inodes == inodes0[i := inodes[i]]
    ensures RestSame(blocks0, inodes0, ptr0, blocks, inodes, ptr, i)
  {
    forall j | 0 <= j < |inodes| && j != i
      ensures inodes[j] == inodes0[j] && Contents(blocks, ptr, j, inodes[j].size)
              == Contents(blocks0, ptr0, j, inodes0[j].size)
    {
      var was, now := Contents(blocks0, ptr0, j, inodes0[j].size), Contents(blocks, ptr, j, inodes0[j].size);
      forall o | 0 <= o < inodes0[j].size ensures now[o] == was[o] {
        InFile(lay, blocks0, inodes0[j], ptr0, j, o);
      }
    }
  }

  // ---- Truncating -----------------------------------------------------------------------------------

  /** ptr is ptr0 without the slots of i before n. */
  ghost predicate Dropped(ptr0: Ptrs, ptr: Ptrs, i: nat, n: nat) {
    && (forall s :: s in ptr ==> s in ptr0 && ptr[s] == ptr0[s])
    && (forall s :: s in ptr0 ==> (s in ptr <==> !(s.inum == i && s.index < n)))
  }

  ghost predicate SameDataArea(lay: Superblock, blocks0: seq<ByteBlock>, blocks: seq<ByteBlock>) {
    |blocks| == |blocks0| && forall b :: lay.datastart <= b < |blocks| ==> blocks[b] == blocks0[b]
  }

  /** The addresses before n are zero; the indirect block's goes last. */
  ghost predicate Cleared(ino0: Inode, ino: Inode, n: nat) {
    && |ino0.addrs| == |ino.addrs| == NDIRECT + 1 && ino == ino0.(addrs := ino.addrs)
    && (forall k :: 0 <= k < NDIRECT ==> ino.addrs[k] == if k < n then 0 else ino0.addrs[k])
    && ino.addrs[NDIRECT] == if n > MAXFILE then 0 else ino0.addrs[NDIRECT]
  }

  lemma NoZero(lay: Superblock, ptr: Ptrs, owner: Owners, s: Slot)
    requires Linked(lay, ptr, owner) && lay.Ok()
    ensures s in ptr ==> ptr[s] != 0
  {
  }

  /** The busy inode may be changed freely. */
  lemma SetAddrBusy(lay: Superblock, blocks: seq<ByteBlock>, inodes: seq<Inode>, ptr: Ptrs, owner: Owners, i: nat,
                    ino: Inode)
    requires Consistent(lay, blocks, inodes, ptr, owner, 0, i) && i < lay.ninodes
    ensures Consistent(lay, blocks, inodes[i := ino], ptr, owner, 0, i)
  {
    var inodes' := inodes[i := ino];
    forall k | 0 <= k < lay.ninodes && k != i ensures Represents(lay, blocks, inodes'[k], ptr, k) {
      assert Represents(lay, blocks, inodes[k], ptr, k);
    }
  }

  /** Without an indirect block nothing is left after the direct ones. */
  lemma NothingIndirect(lay: Superblock, blocks0: seq<ByteBlock>, ino0: Inode, ptr0: Ptrs, ptr: Ptrs, owner: Owners,
                        i: nat)
    requires BlocksOk(lay, blocks0) && Represents(lay, blocks0, ino0, ptr0, i) && ino0.addrs[NDIRECT] == 0
    requires Linked(lay, ptr, owner) && Dropped(ptr0, ptr, i, NDIRECT)
    ensures Dropped(ptr0, ptr, i, MAXFILE + 1)
  {
    forall s | s in ptr && s.inum == i ensures false {
      NoZero(lay, ptr, owner, s);
    }
  }

  /** The truncated inode represents the empty file. */
  lemma EmptyInode(lay: Superblock, blocks0: seq<ByteBlock>, blocks: seq<ByteBlock>, inodes: seq<Inode>, ptr0: Ptrs,
                   ptr: Ptrs, owner: Owners, i: nat)
    requires Consistent(lay, blocks, inodes, ptr, owner, 0, i) && i < lay.ninodes && Dropped(ptr0, ptr, i, MAXFILE + 1)
    requires |inodes[i].addrs| == NDIRECT + 1 && forall k :: 0 <= k <= NDIRECT ==> inodes[i].addrs[k] == 0
    ensures Consistent(lay, blocks, inodes[i := inodes[i].(size := 0)], ptr, owner, 0, lay.ninodes)
  {
    var inodes' := inodes[i := inodes[i].(size := 0)];
    assert forall k :: 0 <= k <= MAXFILE ==> Slot(i, k) !in ptr;
    forall k | 0 <= k < lay.ninodes ensures Represents(lay, blocks, inodes'[k], ptr, k) {
      assert k != i ==> Represents(lay, blocks, inodes[k], ptr, k);
    }
  }

  /** What the bitmap says afterwards. */
  lemma FreedMarks(lay: Superblock, blocks0: seq<ByteBlock>, ptr0: Ptrs, owner0: Owners, blocks: seq<ByteBlock>,
                   ptr: Ptrs, owner: Owners, i: nat)
    requires BlocksOk(lay, blocks0) && BlocksOk(lay, blocks) && Linked(lay, ptr0, owner0) && Linked(lay, ptr, owner)
    requires Marked(lay, blocks0, owner0, 0) && Marked(lay, blocks, owner, 0) && Dropped(ptr0, ptr, i, MAXFILE + 1)
    ensures forall b :: 0 <= b < lay.size ==>
              (Used(lay, blocks, b) <==> Used(lay, blocks0, b) && !(b in owner0 && owner0[b].inum == i))
  {
    forall b | 0 <= b < lay.size ensures b in owner <==> b in owner0 && owner0[b].inum != i {
      if b in owner0 {
        assert owner0[b] in ptr0;
      }
      if b in owner {
        assert owner[b] in ptr;
      }
    }
  }

  lemma DroppedOthers(lay: Superblock, blocks0: seq<ByteBlock>, blocks: seq<ByteBlock>, ptr0: Ptrs, owner0: Owners,
                      ptr: Ptrs, i: nat)
    requires Linked(lay, ptr0, owner0) && SameDataArea(lay, blocks0, blocks) && Dropped(ptr0, ptr, i, MAXFILE + 1)
    ensures Others(blocks0, ptr0, blocks, ptr, i)
  {
  }

  // ---- Whole operations -----------------------------------------------------------------------------

  /** now is the file with the first n bytes of src written over it at off. */
  ghost predicate Wrote(now: seq<byte>, file: seq<byte>, off: nat, src: seq<byte>, n: nat) {
    n <= |src| && if off <= |file| then now == Overlay(file, off, src[..n]) else now == file
  }

  /** Every file but i has the same inode and the same bytes. */
  ghost predicate RestSame(blocks0: seq<ByteBlock>, inodes0: seq<Inode>, ptr0: Ptrs, blocks: seq<ByteBlock>,
                           inodes: seq<Inode>, ptr: Ptrs, i: nat) {
    && |inodes| == |inodes0|
    && forall j {:trigger inodes[j]} :: 0 <= j < |inodes| && j != i ==>
         inodes[j] == inodes0[j] && Contents(blocks, ptr, j, inodes[j].size)
           == Contents(blocks0, ptr0, j, inodes0[j].size)
  }

  lemma RestTrans(blocks0: seq<ByteBlock>, inodes0: seq<Inode>, ptr0: Ptrs, blocks1: seq<ByteBlock>,
                  inodes1: seq<Inode>, ptr1: Ptrs, blocks: seq<ByteBlock>, inodes: seq<Inode>, ptr: Ptrs, i: nat)
    requires RestSame(blocks0, inodes0, ptr0, blocks1, inodes1, ptr1, i)
             && RestSame(blocks1, inodes1, ptr1, blocks, inodes, ptr, i)
    ensures RestSame(blocks0, inodes0, ptr0, blocks, inodes, ptr, i)
  {
    forall j | 0 <= j < |inodes| && j != i
      ensures inodes[j] == inodes0[j] && Contents(blocks, ptr, j, inodes[j].size)
              == Contents(blocks0, ptr0, j, inodes0[j].size)
    {
      assert inodes1[j] == inodes0[j];
    }
  }

  /** One more operation's worth of bytes. */
  lemma WroteOp(before: seq<byte>, now: seq<byte>, file: seq<byte>, off: nat, src: seq<byte>, done: nat, n1: nat,
                r: int)
    requires done + n1 <= |src| && r <= n1 && Wrote(before, file, off, src, done) && (off > |file| ==> done == 0)
    requires if r < 0 || off + done > |before| then now == before && r <= 0
             else now == Overlay(before, off + done, src[done..done + n1][..r])
    ensures Wrote(now, file, off, src, if r > 0 then done + r else done) && (off > |file| ==> r <= 0)
  {
    if r >= 0 && off <= |file| {
      assert src[done..done + n1][..r] == src[done..done + r];
      TakeMore(src, done, r);
      OverlayMore(file, off, src[..done], src[done..done + r]);
    }
  }

  lemma StartState(file: seq<byte>, off: nat, src: seq<byte>)
    ensures Wrote(file, file, off, src, 0)
  {
  }

  lemma SmallFile(lay: Superblock, blocks: seq<ByteBlock>, ino: Inode, ptr: Ptrs, i: nat)
    requires BlocksOk(lay, blocks) && Represents(lay, blocks, ino, ptr, i)
    ensures ino.size <= MAXFILE * BSIZE < 0x8000_0000
  {
  }

  /** An operation that writes at most three blocks' worth of bytes logs four data blocks, the bitmap, the
      indirect block and the inode block at most.  On a disk of at most three bitmap blocks that is
      within what the log guarantees every operation. */
  lemma LogBudget(lay: Superblock, logged: set<nat>, data: set<nat>, ind: nat, inodeblock: nat, off: nat, n: nat)
    requires lay.Ok() && Accounted(lay, {inodeblock}, logged, data, ind) && |data| <= Touched(off, n) && n <= 3 * BSIZE
    ensures |logged| <= 6 + BitmapCount(lay)
    ensures lay.size <= 3 * BPB ==> |logged| <= LogSpec.MAXOPBLOCKS - 1
  {
    FourBlocks(off, n);
    AccountedSize(lay, logged, data, ind, inodeblock);
  }

  lemma AccountedSize(lay: Superblock, logged: set<nat>, data: set<nat>, ind: nat, inodeblock: nat)
    requires lay.Ok() && Accounted(lay, {inodeblock}, logged, data, ind)
    ensures |logged| <= |data| + BitmapCount(lay) + 2
  {
    FourSets(logged, {inodeblock}, Bitmaps(lay), data, {ind});
  }

  lemma BitmapSize(lay: Superblock)
    ensures |Bitmaps(lay)| == BitmapCount(lay) && (lay.size <= 3 * BPB ==> BitmapCount(lay) <= 3)
  {
  }

  lemma FourSets(all: set<nat>, a: set<nat>, b: set<nat>, c: set<nat>, d: set<nat>)
    requires all <= a + b + c + d
    ensures |all| <= |a| + |b| + |c| + |d|
  {
    UnionSize(a, b);
    UnionSize(a + b, c);
    UnionSize(a + b + c, d);
    SubsetSize(all, a + b + c + d);
  }

  lemma FourBlocks(off: nat, n: nat)
    requires n <= 3 * BSIZE
    ensures Touched(off, n) <= 4
  {
  }

  lemma UnionSize(a: set<nat>, b: set<nat>)
    ensures |a + b| <= |a| + |b|
  {
    assert |a + b| == |a| + |b| - |a * b|;
  }

  lemma SubsetSize(a: set<nat>, b: set<nat>)
    requires a <= b
    ensures |a| <= |b|
  {
    assert b == a + (b - a);
  }

  lemma KindConsistent(lay: Superblock, blocks: seq<ByteBlock>, inodes: seq<Inode>, ptr: Ptrs, owner: Owners, i: nat)
    requires Consistent(lay, blocks, inodes, ptr, owner, 0, lay.ninodes) && i < lay.ninodes
    ensures Consistent(lay, blocks, inodes[i := inodes[i].(kind := 0)], ptr, owner, 0, lay.ninodes)
  {
    var inodes' := inodes[i := inodes[i].(kind := 0)];
    forall k | 0 <= k < lay.ninodes ensures Represents(lay, blocks, inodes'[k], ptr, k) {
      assert Represents(lay, blocks, inodes[k], ptr, k);
    }
  }

  lemma InRange(ptr: Ptrs, i: nat, sz: nat, o: nat)
    requires Covered(ptr, i, sz)
    ensures o < sz ==> Slot(i, o / BSIZE) in ptr
  {
    assert o / BSIZE * BSIZE <= o;
  }

  // ---- Reading ------------------------------------------------------------------------------------

  function Min(a: int, b: int): int {
    if a < b then a else b
  }

  /** Below its size a file has every block, and bmap's range panic cannot happen. */
  lemma InFile(lay: Superblock, blocks: seq<ByteBlock>, ino: Inode, ptr: Ptrs, i: nat, o: nat)
    requires BlocksOk(lay, blocks) && Represents(lay, blocks, ino, ptr, i) && o < ino.size
    ensures o / BSIZE < MAXFILE && Slot(i, o / BSIZE) in ptr
  {
    assert o / BSIZE * BSIZE <= o;
  }

  /** What one turn of readi copies is part of the file. */
  lemma ChunkInFile(lay: Superblock, blocks: seq<ByteBlock>, ptr: Ptrs, owner: Owners, i: nat, size: nat, o: nat,
                    m: nat)
    requires BlocksOk(lay, blocks) && Linked(lay, ptr, owner) && Slot(i, o / BSIZE) in ptr
    requires o + m <= size && o % BSIZE + m <= BSIZE
    ensures 0 < ptr[Slot(i, o / BSIZE)] < lay.size && IsBlock(blocks[ptr[Slot(i, o / BSIZE)]])
    ensures Got(blocks[ptr[Slot(i, o / BSIZE)]][o % BSIZE..o % BSIZE + m], Contents(blocks, ptr, i, size), o, m)
  {
    ChunkBytes(lay, blocks, ptr, i, size, o, m);
  }

  /** dst holds the n bytes of the file from off on. */
  ghost predicate Got(dst: seq<byte>, file: seq<byte>, off: nat, n: nat) {
    off + n <= |file| && dst == file[off..off + n]
  }

  lemma GotMore(dst: seq<byte>, chunk: seq<byte>, file: seq<byte>, off: nat, tot: nat, m: nat)
    requires Got(dst, file, off, tot) && Got(chunk, file, off + tot, m)
    ensures Got(dst + chunk, file, off, tot + m)
  {
  }

  /** Bytes of a file within one block. */
  lemma ChunkBytes(lay: Superblock, blocks: seq<ByteBlock>, ptr: Ptrs, i: nat, size: nat, o: nat, m: nat)
    requires BlocksOk(lay, blocks) && o + m <= size && o % BSIZE + m <= BSIZE && Get(ptr, Slot(i, o / BSIZE)) < lay.size
    ensures Contents(blocks, ptr, i, size)[o..o + m] == blocks[Get(ptr, Slot(i, o / BSIZE))][o % BSIZE..o % BSIZE + m]
  {
    var b := Get(ptr, Slot(i, o / BSIZE));
    var file, block := Contents(blocks, ptr, i, size)[o..o + m], blocks[b][o % BSIZE..o % BSIZE + m];
    forall x | 0 <= x < m ensures file[x] == block[x] {
      assert (o + x) / BSIZE == o / BSIZE && (o + x) % BSIZE == o % BSIZE + x;
    }
  }

  /** A file without an indirect block has no block that would need it. */
  lemma NeedsIndirect(lay: Superblock, blocks: seq<ByteBlock>, ino: Inode, ptr: Ptrs, i: nat, bn: nat)
    requires BlocksOk(lay, blocks) && Represents(lay, blocks, ino, ptr, i) && NDIRECT <= bn < MAXFILE
    requires forall s :: s in ptr ==> ptr[s] != 0
    ensures Slot(i, bn) in ptr ==> Slot(i, MAXFILE) in ptr
  {
    assert Get(ptr, Slot(i, bn)) == Indirect(lay, blocks, ino.addrs[NDIRECT], bn - NDIRECT);
  }

  lemma ExtendedTrans(blocks0: seq<ByteBlock>, inodes0: seq<Inode>, ptr0: Ptrs, blocks1: seq<ByteBlock>,
                      inodes1: seq<Inode>, ptr1: Ptrs, blocks2: seq<ByteBlock>, inodes2: seq<Inode>, ptr2: Ptrs, i: nat)
    requires Extended(blocks0, inodes0, ptr0, blocks1, inodes1, ptr1, i)
             && Extended(blocks1, inodes1, ptr1, blocks2, inodes2, ptr2, i)
    ensures Extended(blocks0, inodes0, ptr0, blocks2, inodes2, ptr2, i)
  {
  }

  class Fs {
    const lay: Superblock
    var blocks: seq<ByteBlock>
    var inodes: seq<Inode>     // the in-memory inodes
    var dinodes: seq<Inode>    // the inodes on disk
    ghost var ptr: Ptrs
    ghost var owner: Owners
    ghost var logged: set<nat> // the blocks that the current operation has put into the log

    ghost predicate Valid()
      reads this
    {
      Consistent(lay, blocks, inodes, ptr, owner, 0, lay.ninodes) && |dinodes| == lay.ninodes
    }

    /** Every in-memory inode has been written back. */
    ghost predicate Synced()
      reads this
    {
      dinodes == inodes
    }

    /** A disk without files: no inode is in use and only the blocks before the data area are. */
    constructor (lay: Superblock)
      requires lay.Ok()
      ensures this.lay == lay && Valid() && Synced() && logged == {} && ptr == map[]
      ensures forall i :: 0 <= i < lay.ninodes ==> inodes[i].kind == 0 && inodes[i].nlink == 0 && inodes[i].size == 0
    {
      this.lay, blocks := lay, Blank(lay, lay.datastart);
      inodes, dinodes := seq(lay.ninodes, i => Inode(0, 0, 0, seq(NDIRECT + 1, k => 0))),
        seq(lay.ninodes, i => Inode(0, 0, 0, seq(NDIRECT + 1, k => 0)));
      ptr, owner, logged := map[], map[], {};
      new;
      BlankConsistent(lay, inodes);
    }

    ghost function File(i: nat): seq<byte>
      requires Valid() && i < lay.ninodes
      reads this
    {
      Contents(blocks, ptr, i, inodes[i].size)
    }

    /** balloc: the first free block, marked and zeroed; or 0 when the bitmap is full. */
    method Balloc() returns (b: nat)
      requires Valid()
      modifies this`blocks, this`logged
      ensures b == 0 ==> blocks == old(blocks) && logged == old(logged) && UsedBelow(lay, blocks, lay.size)
      ensures b != 0 ==>
                && lay.datastart <= b < lay.size && !Used(lay, old(blocks), b) && UsedBelow(lay, old(blocks), b)
                && blocks == Taken(lay, old(blocks), b) && logged <= old(logged) + Bitmaps(lay) + {b}
                && Consistent(lay, blocks, inodes, ptr, owner, b, lay.ninodes)
                && SameData(old(blocks), blocks, ptr, ptr)
                && blocks[b] == Zeroed()
    {
      b := FirstFree();
      if b < lay.size {
        Take(b);
      } else {
        b := 0;
      }
    }

    /** balloc's search, one bitmap block after the other. */
    method FirstFree() returns (b: nat)
      requires BlocksOk(lay, blocks)
      ensures b <= lay.size && UsedBelow(lay, blocks, b) && (b < lay.size ==> !Used(lay, blocks, b))
    {
      b := 0;
      while b < lay.size
        invariant b <= lay.size && UsedBelow(lay, blocks, b) && (b < lay.size ==> b % BPB == 0)
        decreases lay.size - b
      {
        var bi := ScanBitmap(b);
        b := b + bi;
        if bi < BPB { return; }
      }
    }

    /** The inner loop: the first clear bit in the bitmap block of `base`, if it is a block's at all. */
    method ScanBitmap(base: nat) returns (bi: nat)
      requires BlocksOk(lay, blocks) && base < lay.size && base % BPB == 0 && UsedBelow(lay, blocks, base)
      ensures bi <= BPB && base + bi <= lay.size && UsedBelow(lay, blocks, base + bi)
      ensures bi < BPB && base + bi < lay.size ==> !Used(lay, blocks, base + bi)
    {
      BitmapRange(lay, base);
      var bm := lay.BitmapBlock(base);
      bi := 0;
      while bi < BPB && base + bi < lay.size
        invariant bi <= BPB && base + bi <= lay.size && UsedBelow(lay, blocks, base + bi)
      {
        SameBitmap(lay, blocks, base, bi);
        if !BitAt(blocks[bm], bi) { return; }
        bi := bi + 1;
      }
    }

    /** Mark the block in the bitmap and zero it. */
    method Take(b: nat)
      requires Valid() && b < lay.size && !Used(lay, blocks, b)
      modifies this`blocks, this`logged
      ensures 0 < lay.datastart <= b && blocks == Taken(lay, old(blocks), b) && |blocks| == lay.size
      ensures blocks[b] == Zeroed() && logged <= old(logged) + Bitmaps(lay) + {b}
      ensures Consistent(lay, blocks, inodes, ptr, owner, b, lay.ninodes) && SameData(old(blocks), blocks, ptr, ptr)
    {
      TakeConsistent(lay, blocks, inodes, ptr, owner, b);
      BitmapRange(lay, b);
      InBitmaps(lay, b);
      var bm := lay.BitmapBlock(b);
      blocks := blocks[bm := SetBit(blocks[bm], b % BPB)];
      blocks := blocks[b := Zeroed()];
      logged := logged + {bm, b};
    }

    /** bfree of the block in slot s: its bit is set, so the panic cannot happen. */
    method Bfree(b: nat, ghost s: Slot)
      requires Consistent(lay, blocks, inodes, ptr, owner, 0, s.inum) && s in ptr && b == ptr[s]
      modifies this`blocks, this`logged, this`ptr, this`owner
      ensures Consistent(lay, blocks, inodes, ptr, owner, 0, s.inum)
      ensures ptr == old(ptr) - {s} && owner == old(owner) - {b} && logged == old(logged) + {lay.BitmapBlock(b)}
      ensures lay.datastart <= b < lay.size && Used(lay, old(blocks), b) && blocks == Returned(lay, old(blocks), b)
    {
      ReturnConsistent(lay, blocks, inodes, ptr, owner, s);
      BitmapRange(lay, b);
      var bm := lay.BitmapBlock(b);
      assert BitAt(blocks[bm], b % BPB);
      blocks := blocks[bm := ClearBit(blocks[bm], b % BPB)];
      logged := logged + {bm};
      ptr, owner := ptr - {s}, owner - {b};
    }

    /** What bmap leaves behind. */
    ghost predicate Mapped(blocks0: seq<ByteBlock>, inodes0: seq<Inode>, ptr0: Ptrs, logged0: set<nat>, i: nat,
                           extra: set<nat>)
      reads this
    {
      && Valid() && Extended(blocks0, inodes0, ptr0, blocks, inodes, ptr, i)
      && logged <= logged0 + Bitmaps(lay) + (extra - {0})
    }

    /** ip->addrs[k], allocated if necessary; k == NDIRECT is the indirect block. */
    method Direct(i: nat, k: nat) returns (addr: nat)
      requires Valid() && i < lay.ninodes && k <= NDIRECT
      modifies this`blocks, this`inodes, this`ptr, this`owner, this`logged
      ensures Mapped(old(blocks), old(inodes), old(ptr), old(logged), i, {addr})
      ensures addr == Get(ptr, Slot(i, if k == NDIRECT then MAXFILE else k))
      ensures addr == 0 ==> UsedBelow(lay, blocks, lay.size)
      ensures Slot(i, if k == NDIRECT then MAXFILE else k) in old(ptr) || addr == 0 ==>
                blocks == old(blocks) && inodes == old(inodes) && ptr == old(ptr) && logged == old(logged)
      ensures k == NDIRECT ==> forall j :: 0 <= j < MAXFILE ==> (Slot(i, j) in ptr <==> Slot(i, j) in old(ptr))
    {
      assert Represents(lay, blocks, inodes[i], ptr, i);
      addr := inodes[i].addrs[k];
      if addr == 0 {
        addr := Balloc();
        if addr != 0 {
          Attach(i, k, addr, old(blocks));
        }
      }
    }

    /** ip->addrs[k] = addr. */
    method Attach(i: nat, k: nat, addr: nat, ghost blocks0: seq<ByteBlock>)
      requires Consistent(lay, blocks, inodes, ptr, owner, addr, lay.ninodes) && |dinodes| == lay.ninodes
               && i < lay.ninodes
      requires k <= NDIRECT && addr != 0 && blocks[addr] == Zeroed() && |inodes[i].addrs| == NDIRECT + 1
               && inodes[i].addrs[k] == 0
      requires SameData(blocks0, blocks, ptr, ptr)
      modifies this`inodes, this`ptr, this`owner
      ensures Valid() && Extended(blocks0, old(inodes), old(ptr), blocks, inodes, ptr, i)
      ensures var s := Slot(i, if k == NDIRECT then MAXFILE else k); s !in old(ptr) && ptr == old(ptr)[s := addr]
    {
      AttachAddr(lay, blocks, inodes, ptr, owner, i, k, addr);
      ghost var s := Slot(i, if k == NDIRECT then MAXFILE else k);
      inodes := inodes[i := inodes[i].(addrs := inodes[i].addrs[k := addr])];
      ptr, owner := ptr[s := addr], owner[addr := s];
    }

    /** a[j] in the indirect block of file i, allocated if necessary. */
    method Entry(i: nat, j: nat, ind: nat) returns (addr: nat)
      requires Valid() && i < lay.ninodes && j < NINDIRECT && Slot(i, MAXFILE) in ptr && ind == ptr[Slot(i, MAXFILE)]
      modifies this`blocks, this`ptr, this`owner, this`logged
      ensures Mapped(old(blocks), inodes, old(ptr), old(logged), i, {addr, ind})
      ensures addr == Get(ptr, Slot(i, NDIRECT + j)) && Slot(i, MAXFILE) in ptr && ptr[Slot(i, MAXFILE)] == ind
      ensures addr == 0 ==> UsedBelow(lay, blocks, lay.size)
      ensures Slot(i, NDIRECT + j) in old(ptr) ==> blocks == old(blocks) && ptr == old(ptr) && logged == old(logged)
    {
      addr := ReadEntry(i, j, ind);
      if addr == 0 {
        addr := NewEntry(i, j, ind);
      }
    }

    /** A block for a[j], which was 0. */
    method NewEntry(i: nat, j: nat, ind: nat) returns (addr: nat)
      requires Valid() && i < lay.ninodes && j < NINDIRECT && Slot(i, MAXFILE) in ptr && ind == ptr[Slot(i, MAXFILE)]
      requires Slot(i, NDIRECT + j) !in ptr
      modifies this`blocks, this`ptr, this`owner, this`logged
      ensures Mapped(old(blocks), inodes, old(ptr), old(logged), i, {addr, ind})
      ensures addr == Get(ptr, Slot(i, NDIRECT + j)) && Slot(i, MAXFILE) in ptr && ptr[Slot(i, MAXFILE)] == ind
      ensures addr == 0 ==> UsedBelow(lay, blocks, lay.size)
    {
      addr := Balloc();
      if addr != 0 {
        AttachEntry(i, j, ind, addr, old(blocks));
      }
    }

    /** a[j]. */
    method ReadEntry(i: nat, j: nat, ind: nat) returns (addr: nat)
      requires Valid() && i < lay.ninodes && j < NINDIRECT && Slot(i, MAXFILE) in ptr && ind == ptr[Slot(i, MAXFILE)]
      ensures addr == Get(ptr, Slot(i, NDIRECT + j)) && (addr == 0 ==> Slot(i, NDIRECT + j) !in ptr)
    {
      EntryIs(lay, blocks, inodes[i], ptr, owner, i, j, ind);
      addr := Word(blocks[ind], j);
    }

    /** a[j] = addr. */
    method AttachEntry(i: nat, j: nat, ind: nat, addr: nat, ghost blocks0: seq<ByteBlock>)
      requires Consistent(lay, blocks, inodes, ptr, owner, addr, lay.ninodes) && |dinodes| == lay.ninodes
               && i < lay.ninodes
      requires j < NINDIRECT && addr != 0 && blocks[addr] == Zeroed() && Slot(i, NDIRECT + j) !in ptr
      requires Slot(i, MAXFILE) in ptr && ind == ptr[Slot(i, MAXFILE)] && SameData(blocks0, blocks, ptr, ptr)
      modifies this`blocks, this`ptr, this`owner, this`logged
      ensures Valid() && Extended(blocks0, inodes, old(ptr), blocks, inodes, ptr, i)
      ensures ptr == old(ptr)[Slot(i, NDIRECT + j) := addr] && logged == old(logged) + {ind}
    {
      AttachIndirect(lay, blocks, inodes, ptr, owner, i, j, addr);
      blocks := blocks[ind := PutWord(blocks[ind], j, addr)];
      ptr, owner := ptr[Slot(i, NDIRECT + j) := addr], owner[addr := Slot(i, NDIRECT + j)];
      logged := logged + {ind};
    }

    /** bmap: the block of slot bn of file i, allocated if necessary; 0 when the disk is full. */
    method Bmap(i: nat, bn: nat) returns (addr: nat)
      requires Valid() && i < lay.ninodes && bn < MAXFILE
      modifies this`blocks, this`inodes, this`ptr, this`owner, this`logged
      ensures Mapped(old(blocks), old(inodes), old(ptr), old(logged), i, {addr, Get(ptr, Slot(i, MAXFILE))})
      ensures addr == Get(ptr, Slot(i, bn))
      ensures addr == 0 ==> UsedBelow(lay, blocks, lay.size)
      ensures Slot(i, bn) in old(ptr) ==> blocks == old(blocks) && inodes == old(inodes) && ptr == old(ptr)
                                          && logged == old(logged)
    {
      if bn < NDIRECT {
        addr := Direct(i, bn);
      } else {
        NeedsIndirect(lay, blocks, inodes[i], ptr, i, bn);
        addr := ThroughIndirect(i, bn - NDIRECT);
      }
    }

    /** The second half of bmap. */
    method ThroughIndirect(i: nat, j: nat) returns (addr: nat)
      requires Valid() && i < lay.ninodes && j < NINDIRECT
      requires Slot(i, NDIRECT + j) in ptr ==> Slot(i, MAXFILE) in ptr
      modifies this`blocks, this`inodes, this`ptr, this`owner, this`logged
      ensures Mapped(old(blocks), old(inodes), old(ptr), old(logged), i, {addr, Get(ptr, Slot(i, MAXFILE))})
      ensures addr == Get(ptr, Slot(i, NDIRECT + j))
      ensures addr == 0 ==> UsedBelow(lay, blocks, lay.size)
      ensures Slot(i, NDIRECT + j) in old(ptr) ==>
                blocks == old(blocks) && inodes == old(inodes) && ptr == old(ptr) && logged == old(logged)
    {
      var ind := Direct(i, NDIRECT);
      if ind == 0 {
        return 0;
      }
      addr := EntryAfter(i, j, ind, old(blocks), old(inodes), old(ptr), old(logged));
    }

    /** The entry of the indirect block, once there is one. */
    method EntryAfter(i: nat, j: nat, ind: nat, ghost blocks0: seq<ByteBlock>, ghost inodes0: seq<Inode>,
                      ghost ptr0: Ptrs, ghost logged0: set<nat>)
      returns (addr: nat)
      requires Mapped(blocks0, inodes0, ptr0, logged0, i, {ind}) && i < lay.ninodes && j < NINDIRECT
      requires Slot(i, MAXFILE) in ptr && ind == ptr[Slot(i, MAXFILE)]
      modifies this`blocks, this`ptr, this`owner, this`logged
      ensures Mapped(blocks0, inodes0, ptr0, logged0, i, {addr, ind})
      ensures addr == Get(ptr, Slot(i, NDIRECT + j)) && Slot(i, MAXFILE) in ptr && ptr[Slot(i, MAXFILE)] == ind
      ensures addr == 0 ==> UsedBelow(lay, blocks, lay.size)
      ensures Slot(i, NDIRECT + j) in old(ptr) ==> blocks == old(blocks) && ptr == old(ptr) && logged == old(logged)
    {
      ghost var blocks1, ptr1 := blocks, ptr;
      addr := Entry(i, j, ind);
      ExtendedTrans(blocks0, inodes0, ptr0, blocks1, inodes, ptr1, blocks, inodes, ptr, i);
    }

    /** readi: the bytes of the file, as far as it goes.  `room` bytes of the destination are writable.
        Reading never allocates: nothing changes. */
    method Readi(i: nat, off: nat, n0: nat, room: nat) returns (tot: int, dst: seq<byte>)
      requires Valid() && i < lay.ninodes && off < 0x1_0000_0000 && n0 < 0x1_0000_0000
      modifies this`blocks, this`inodes, this`ptr, this`owner, this`logged
      ensures Valid() && blocks == old(blocks) && inodes == old(inodes) && ptr == old(ptr) && logged == old(logged)
      ensures off > inodes[i].size || off + n0 >= 0x1_0000_0000 ==> tot == 0 && dst == []
      ensures off <= inodes[i].size && off + n0 < 0x1_0000_0000 ==>
                var n := Min(n0, inodes[i].size - off);
                && off + |dst| <= inodes[i].size && dst == File(i)[off..off + |dst|]
                && (if n <= room then tot == n == |dst| else tot == -1)
    {
      dst := [];
      if off > inodes[i].size || off + n0 >= 0x1_0000_0000 {
        return 0, dst;
      }
      var n := if off + n0 > inodes[i].size then inodes[i].size - off else n0;
      tot, dst := ReadAll(i, off, n, room, File(i));
    }

    /** readi's loop. */
    method ReadAll(i: nat, off: nat, n: nat, room: nat, ghost file: seq<byte>) returns (tot: int, dst: seq<byte>)
      requires Valid() && i < lay.ninodes && off + n <= inodes[i].size == |file| && file == File(i)
      modifies this`blocks, this`inodes, this`ptr, this`owner, this`logged
      ensures Valid() && blocks == old(blocks) && inodes == old(inodes) && ptr == old(ptr) && logged == old(logged)
      ensures |dst| <= n && Got(dst, file, off, |dst|) && (if n <= room then tot == n == |dst| else tot == -1)
    {
      tot, dst := 0, [];
      while tot < n
        invariant 0 <= tot <= n && tot <= room && Got(dst, file, off, tot)
        invariant Valid() && blocks == old(blocks) && inodes == old(inodes) && ptr == old(ptr) && logged == old(logged)
        decreases n - tot
      {
        var m, chunk := ReadChunk(i, off + tot, n - tot, file);
        if tot + m > room {
          return -1, dst;
        }
        GotMore(dst, chunk, file, off, tot, m);
        dst, tot := dst + chunk, tot + m;
      }
    }

    /** What one turn reads: the rest of a block at most.  No block is missing below the size, so bmap
        does not allocate. */
    method ReadChunk(i: nat, o: nat, left: nat, ghost file: seq<byte>) returns (m: nat, chunk: seq<byte>)
      requires Valid() && i < lay.ninodes && 0 < left && o + left <= inodes[i].size == |file| && file == File(i)
      modifies this`blocks, this`inodes, this`ptr, this`owner, this`logged
      ensures Valid() && blocks == old(blocks) && inodes == old(inodes) && ptr == old(ptr) && logged == old(logged)
      ensures 0 < m <= left && Got(chunk, file, o, m)
    {
      m := Min(left, BSIZE - o % BSIZE);
      InFile(lay, blocks, inodes[i], ptr, i, o);
      ChunkInFile(lay, blocks, ptr, owner, i, inodes[i].size, o, m);
      var addr := Bmap(i, o / BSIZE);
      chunk := blocks[addr][o % BSIZE..o % BSIZE + m];
    }

    /** Where writei stands: the first tot bytes of src are in the file, though the inode's size does not
        yet say so; the other files are untouched; besides bitmap and indirect block only the blocks in
        `data` have been logged. */
    ghost predicate Writing(blocks0: seq<ByteBlock>, inodes0: seq<Inode>, ptr0: Ptrs, logged0: set<nat>, i: nat,
                            file: seq<byte>, off: nat, src: seq<byte>, data: set<nat>)
      reads this
    {
      Valid() && SoFar(lay, blocks0, inodes0, ptr0, logged0, blocks, inodes, ptr, logged, i, file, off, src, data)
    }

    /** One turn of writei's loop: map the block, copy, log. */
    method WriteChunk(i: nat, chunk: seq<byte>, readable: bool, ghost blocks0: seq<ByteBlock>,
                      ghost inodes0: seq<Inode>, ghost ptr0: Ptrs, ghost logged0: set<nat>, ghost file: seq<byte>,
                      off: nat, ghost src: seq<byte>, tot: nat, ghost data: set<nat>)
      returns (ok: bool, ghost addr: nat)
      requires Writing(blocks0, inodes0, ptr0, logged0, i, file, off, src, data) && tot == |src|
               && off + tot + |chunk| <= MAXFILE * BSIZE
      requires 0 < |chunk| && (off + tot) % BSIZE + |chunk| <= BSIZE
      modifies this`blocks, this`inodes, this`ptr, this`owner, this`logged
      ensures Writing(blocks0, inodes0, ptr0, logged0, i, file, off, if ok then src + chunk else src, data + {addr})
      ensures !ok ==> !readable || (UsedBelow(lay, blocks, lay.size) && off + tot >= |file|)
    {
      var o := off + tot;
      InRange(ptr, i, Max(|file|, off + |src|), o);
      var a := MapChunk(i, o / BSIZE, blocks0, inodes0, ptr0, logged0, file, off, src, data);
      addr := a;
      ok := a != 0 && readable;
      if ok {
        StoreChunk(i, a, chunk, blocks0, inodes0, ptr0, logged0, file, off, src, tot, data + {a});
      }
    }

    /** The call of bmap: the file keeps its bytes. */
    method MapChunk(i: nat, bn: nat, ghost blocks0: seq<ByteBlock>, ghost inodes0: seq<Inode>, ghost ptr0: Ptrs,
                    ghost logged0: set<nat>, ghost file: seq<byte>, ghost off: nat, ghost src: seq<byte>,
                    ghost data: set<nat>)
      returns (addr: nat)
      requires Writing(blocks0, inodes0, ptr0, logged0, i, file, off, src, data) && bn < MAXFILE
      modifies this`blocks, this`inodes, this`ptr, this`owner, this`logged
      ensures Writing(blocks0, inodes0, ptr0, logged0, i, file, off, src, data + {addr})
      ensures addr == Get(ptr, Slot(i, bn)) && (addr == 0 ==>
                                                  UsedBelow(lay, blocks, lay.size) && Slot(i, bn) !in old(ptr))
    {
      ghost var blocks1, ptr1, owner1 := blocks, ptr, owner;
      assert Represents(lay, blocks, inodes[i], ptr, i);
      NoZero(lay, ptr, owner, Slot(i, bn));
      addr := Bmap(i, bn);
      ContentsKept(lay, blocks1, ptr1, owner1, blocks, ptr, i, Max(|file|, off + |src|));
      OthersStill(lay, blocks0, ptr0, blocks1, ptr1, owner1, blocks, ptr, i);
    }

    /** A data block gets new contents and is logged. */
    method PutBlock(ghost s: Slot, addr: nat, block: ByteBlock)
      requires Valid() && s in ptr && s.index < MAXFILE && addr == ptr[s] && IsBlock(block)
      modifies this`blocks, this`logged
      ensures Valid() && blocks == old(blocks)[addr := block] && logged == old(logged) + {addr}
    {
      WriteConsistent(lay, blocks, inodes, ptr, owner, s, block);
      blocks := blocks[addr := block];
      logged := logged + {addr};
    }

    /** memmove into the buffer and log_write. */
    method StoreChunk(i: nat, addr: nat, chunk: seq<byte>, ghost blocks0: seq<ByteBlock>, ghost inodes0: seq<Inode>,
                      ghost ptr0: Ptrs, ghost logged0: set<nat>, ghost file: seq<byte>, off: nat, ghost src: seq<byte>,
                      tot: nat, ghost data: set<nat>)
      requires Writing(blocks0, inodes0, ptr0, logged0, i, file, off, src, data) && tot == |src|
               && off + tot + |chunk| <= MAXFILE * BSIZE
      requires 0 < |chunk| && (off + tot) % BSIZE + |chunk| <= BSIZE && addr in data
      requires addr != 0 && addr == Get(ptr, Slot(i, (off + tot) / BSIZE))
      modifies this`blocks, this`logged
      ensures Writing(blocks0, inodes0, ptr0, logged0, i, file, off, src + chunk, data)
    {
      WroteChunk(lay, blocks0, inodes0, ptr0, logged0, blocks, inodes, ptr, owner, logged, i, file, off, src, chunk,
                 data, addr);
      PutBlock(Slot(i, (off + tot) / BSIZE), addr, Copied(blocks[addr], off + tot, chunk));
    }

    /** writei: the file with src (as much of it as `good` bytes can be read and blocks can be found)
        written over it at off.  No other file changes, and the inode is on disk. */
    method Writei(i: nat, src: seq<byte>, off: nat, good: nat)
      returns (tot: int, ghost data: set<nat>, ghost turns: nat)
      requires Valid() && Synced() && i < lay.ninodes && off < 0x1_0000_0000 && |src| < 0x1_0000_0000
      modifies this
      ensures Valid() && Synced()
      ensures Refused(old(inodes)[i], off, |src|) ==>
                tot == -1 && blocks == old(blocks) && inodes == old(inodes) && ptr == old(ptr) && logged == old(logged)
                  && data == {}
      ensures !Refused(old(inodes)[i], off, |src|) ==>
                && 0 <= tot <= |src| && File(i) == Overlay(old(File(i)), off, src[..tot])
                && Turns(off, tot, |src|, turns)
                && inodes == old(inodes)[i := old(inodes)[i].(size := inodes[i].size, addrs := inodes[i].addrs)]
                && (tot < |src| ==> good < |src| || (UsedBelow(lay, blocks, lay.size)
                                                     && off + tot >= old(inodes)[i].size))
                && |data| <= Touched(off, |src|)
                && Accounted(lay, old(logged) + {lay.InodeBlock(i)}, logged, data, Get(ptr, Slot(i, MAXFILE)))
      ensures RestSame(old(blocks), old(inodes), old(ptr), blocks, inodes, ptr, i)
    {
      data, turns := {}, 0;
      tot := -1;
      if off > inodes[i].size || off + |src| >= 0x1_0000_0000 || off + |src| > MAXFILE * BSIZE {
        return;
      }
      ghost var file := File(i);
      ghost var blocks0, inodes0, ptr0, owner0 := blocks, inodes, ptr, owner;
      tot, data, turns := WriteAll(i, src, off, good, file);
      Finish(i, off, tot, src, file, blocks0, inodes0, ptr0, old(logged), data);
      RestStays(lay, blocks0, inodes0, ptr0, owner0, blocks, inodes, ptr, i);
    }

    /** writei's loop. */
    method WriteAll(i: nat, src: seq<byte>, off: nat, good: nat, ghost file: seq<byte>)
      returns (tot: nat, ghost data: set<nat>, ghost turns: nat)
      requires Valid() && i < lay.ninodes && off <= inodes[i].size && off + |src| <= MAXFILE * BSIZE && file == File(i)
      modifies this`blocks, this`inodes, this`ptr, this`owner, this`logged
      ensures tot <= |src| && |data| <= Touched(off, |src|) && Turns(off, tot, |src|, turns)
      ensures Writing(old(blocks), old(inodes), old(ptr), old(logged), i, file, off, src[..tot], data)
      ensures tot < |src| ==> good < |src| || (UsedBelow(lay, blocks, lay.size) && off + tot >= |file|)
    {
      tot, data, turns := 0, {}, 0;
      StartWriting(lay, blocks, inodes, ptr, owner, i, off);
      assert src[..0] == [];
      while tot < |src|
        invariant |data| <= turns && Turns(off, tot, |src|, turns)
        invariant Writing(old(blocks), old(inodes), old(ptr), old(logged), i, file, off, src[..tot], data)
        decreases |src| - tot
      {
        var ok: bool;
        ok, tot, data := WriteNext(i, src, off, tot, good, file, old(blocks), old(inodes), old(ptr), old(logged),
                                   data, turns);
        if !ok { return; }
        turns := turns + 1;
      }
    }

    method WriteNext(i: nat, src: seq<byte>, off: nat, tot: nat, good: nat, ghost file: seq<byte>,
                     ghost blocks0: seq<ByteBlock>, ghost inodes0: seq<Inode>, ghost ptr0: Ptrs,
                     ghost logged0: set<nat>, ghost data: set<nat>, ghost turns: nat)
      returns (ok: bool, tot': nat, ghost data': set<nat>)
      requires tot < |src| && off + |src| <= MAXFILE * BSIZE && Turns(off, tot, |src|, turns)
      requires Writing(blocks0, inodes0, ptr0, logged0, i, file, off, src[..tot], data)
      modifies this`blocks, this`inodes, this`ptr, this`owner, this`logged
      ensures if ok then tot < tot' && Turns(off, tot', |src|, turns + 1) else tot' == tot
      ensures |data'| <= |data| + 1 && turns + 1 <= Touched(off, |src|)
      ensures tot' <= |src| && Writing(blocks0, inodes0, ptr0, logged0, i, file, off, src[..tot'], data')
      ensures !ok ==> good < |src| || (UsedBelow(lay, blocks, lay.size) && off + tot >= |file|)
    {
      var m := ChunkSize(off, tot, |src|, turns);
      TakeMore(src, tot, m);
      ghost var addr: nat;
      ok, addr := WriteChunk(i, src[tot..tot + m], tot + m <= good, blocks0, inodes0, ptr0, logged0, file, off,
                             src[..tot], tot, data);
      tot', data' := if ok then tot + m else tot, data + {addr};
    }

    /** min(n - tot, BSIZE - off % BSIZE). */
    method ChunkSize(off: nat, tot: nat, n: nat, ghost turns: nat) returns (m: nat)
      requires Turns(off, tot, n, turns) && tot < n
      ensures 0 < m <= n - tot && (off + tot) % BSIZE + m <= BSIZE
      ensures Turns(off, tot + m, n, turns + 1) && turns + 1 <= Touched(off, n)
    {
      m := Min(n - tot, BSIZE - (off + tot) % BSIZE);
      NextTurn(off, tot, n, turns, m);
    }

    /** The end of writei: the new size, and iupdate. */
    method Finish(i: nat, off: nat, tot: nat, ghost src: seq<byte>, ghost file: seq<byte>,
                  ghost blocks0: seq<ByteBlock>, ghost inodes0: seq<Inode>, ghost ptr0: Ptrs, ghost logged0: set<nat>,
                  ghost data: set<nat>)
      requires tot <= |src| && Writing(blocks0, inodes0, ptr0, logged0, i, file, off, src[..tot], data)
      requires |inodes0| == |dinodes| && dinodes == inodes0
      modifies this`inodes, this`dinodes, this`logged
      ensures Valid() && Synced() && File(i) == Overlay(file, off, src[..tot])
      ensures inodes == inodes0[i := inodes0[i].(size := inodes[i].size, addrs := inodes[i].addrs)]
      ensures Accounted(lay, logged0 + {lay.InodeBlock(i)}, logged, data, Get(ptr, Slot(i, MAXFILE)))
    {
      ghost var inodes1 := inodes;
      var size := Max(inodes[i].size, off + tot);
      SizeConsistent(lay, blocks, inodes, ptr, owner, i, size);
      inodes := inodes[i := inodes[i].(size := size)];
      dinodes := dinodes[i := inodes[i]];
      logged := logged + {lay.InodeBlock(i)};
    }

    /** Where itrunc stands: the slots before n have given up their blocks; data and indirect blocks still
        hold what they held. */
    ghost predicate Truncating(blocks0: seq<ByteBlock>, inodes0: seq<Inode>, ptr0: Ptrs, logged0: set<nat>, i: nat,
                               n: nat)
      reads this
    {
      && Consistent(lay, blocks, inodes, ptr, owner, 0, i) && |dinodes| == lay.ninodes && i < lay.ninodes == |inodes0|
      && Dropped(ptr0, ptr, i, n) && SameDataArea(lay, blocks0, blocks) && logged <= logged0 + Bitmaps(lay)
      && inodes == inodes0[i := inodes[i]] && Cleared(inodes0[i], inodes[i], n)
    }

    /** bfree of the block in slot k, if there is one. */
    method FreeSlot(i: nat, k: nat, b: nat, ghost blocks0: seq<ByteBlock>, ghost inodes0: seq<Inode>, ghost ptr0: Ptrs,
                    ghost logged0: set<nat>)
      requires Truncating(blocks0, inodes0, ptr0, logged0, i, k) && k <= MAXFILE && b == Get(ptr0, Slot(i, k))
      modifies this`blocks, this`logged, this`ptr, this`owner
      ensures Consistent(lay, blocks, inodes, ptr, owner, 0, i) && Dropped(ptr0, ptr, i, k + 1)
      ensures SameDataArea(lay, blocks0, blocks) && logged <= logged0 + Bitmaps(lay)
    {
      if b != 0 {
        BitmapRange(lay, b);
        InBitmaps(lay, b);
        Bfree(b, Slot(i, k));
      } else {
        NoZero(lay, ptr, owner, Slot(i, k));
      }
    }

    /** One turn of itrunc's first loop. */
    method FreeDirect(i: nat, k: nat, ghost blocks0: seq<ByteBlock>, ghost inodes0: seq<Inode>, ghost ptr0: Ptrs,
                      ghost logged0: set<nat>)
      requires Truncating(blocks0, inodes0, ptr0, logged0, i, k) && k < NDIRECT
               && inodes0[i].addrs[k] == Get(ptr0, Slot(i, k))
      modifies this`blocks, this`inodes, this`logged, this`ptr, this`owner
      ensures Truncating(blocks0, inodes0, ptr0, logged0, i, k + 1)
    {
      FreeSlot(i, k, inodes[i].addrs[k], blocks0, inodes0, ptr0, logged0);
      SetAddrBusy(lay, blocks, inodes, ptr, owner, i, inodes[i].(addrs := inodes[i].addrs[k := 0]));
      inodes := inodes[i := inodes[i].(addrs := inodes[i].addrs[k := 0])];
    }

    /** One turn of the second loop: the entry of the indirect block is not cleared. */
    method FreeIndirect(i: nat, j: nat, ind: nat, ghost blocks0: seq<ByteBlock>, ghost inodes0: seq<Inode>,
                        ghost ptr0: Ptrs, ghost logged0: set<nat>)
      requires Truncating(blocks0, inodes0, ptr0, logged0, i, NDIRECT + j) && j < NINDIRECT
      requires lay.datastart <= ind < lay.size == |blocks0| && IsBlock(blocks0[ind])
               && Word(blocks0[ind], j) == Get(ptr0, Slot(i, NDIRECT + j))
      modifies this`blocks, this`logged, this`ptr, this`owner
      ensures Truncating(blocks0, inodes0, ptr0, logged0, i, NDIRECT + j + 1)
    {
      assert blocks[ind] == blocks0[ind];
      FreeSlot(i, NDIRECT + j, Word(blocks[ind], j), blocks0, inodes0, ptr0, logged0);
    }

    /** itrunc: the file is empty and its blocks, exactly, are free again. */
    method Itrunc(i: nat)
      requires Valid() && Synced() && i < lay.ninodes
      modifies this
      ensures Valid() && Synced() && inodes == old(inodes)[i := inodes[i]] && inodes[i].kind == old(inodes)[i].kind
              && inodes[i].nlink == old(inodes)[i].nlink
      ensures File(i) == [] && Dropped(old(ptr), ptr, i, MAXFILE + 1)
      ensures forall b :: 0 <= b < lay.size ==>
                (Used(lay, blocks, b) <==> Used(lay, old(blocks), b) && !(b in old(owner) && old(owner)[b].inum == i))
      ensures logged <= old(logged) + Bitmaps(lay) + {lay.InodeBlock(i)}
      ensures RestSame(old(blocks), old(inodes), old(ptr), blocks, inodes, ptr, i)
    {
      ghost var blocks0, inodes0, ptr0, owner0 := blocks, inodes, ptr, owner;
      assert Represents(lay, blocks, inodes[i], ptr, i);
      FreeAll(i);
      EmptyInode(lay, blocks0, blocks, inodes, ptr0, ptr, owner, i);
      inodes := inodes[i := inodes[i].(size := 0)];
      dinodes := dinodes[i := inodes[i]];
      logged := logged + {lay.InodeBlock(i)};
      FreedMarks(lay, blocks0, ptr0, owner0, blocks, ptr, owner, i);
      DroppedOthers(lay, blocks0, blocks, ptr0, owner0, ptr, i);
      RestStays(lay, blocks0, inodes0, ptr0, owner0, blocks, inodes, ptr, i);
    }

    /** itrunc's loops. */
    method FreeAll(i: nat)
      requires Valid() && i < lay.ninodes
      modifies this`blocks, this`inodes, this`logged, this`ptr, this`owner
      ensures Truncating(old(blocks), old(inodes), old(ptr), old(logged), i, MAXFILE + 1)
    {
      ghost var blocks0, inodes0, ptr0, logged0 := blocks, inodes, ptr, logged;
      assert Represents(lay, blocks, inodes[i], ptr, i);
      var k := 0;
      while k < NDIRECT
        invariant k <= NDIRECT && Truncating(blocks0, inodes0, ptr0, logged0, i, k)
      {
        FreeDirect(i, k, blocks0, inodes0, ptr0, logged0);
        k := k + 1;
      }
      if inodes[i].addrs[NDIRECT] != 0 {
        FreeEntries(i, inodes[i].addrs[NDIRECT], blocks0, inodes0, ptr0, logged0);
        FreeLast(i, blocks0, inodes0, ptr0, logged0);
      } else {
        NothingIndirect(lay, blocks0, inodes0[i], ptr0, ptr, owner, i);
      }
    }

    /** The indirect block itself. */
    method FreeLast(i: nat, ghost blocks0: seq<ByteBlock>, ghost inodes0: seq<Inode>, ghost ptr0: Ptrs,
                    ghost logged0: set<nat>)
      requires Truncating(blocks0, inodes0, ptr0, logged0, i, MAXFILE)
               && inodes0[i].addrs[NDIRECT] == Get(ptr0, Slot(i, MAXFILE))
      modifies this`blocks, this`inodes, this`logged, this`ptr, this`owner
      ensures Truncating(blocks0, inodes0, ptr0, logged0, i, MAXFILE + 1)
    {
      FreeSlot(i, MAXFILE, inodes[i].addrs[NDIRECT], blocks0, inodes0, ptr0, logged0);
      SetAddrBusy(lay, blocks, inodes, ptr, owner, i, inodes[i].(addrs := inodes[i].addrs[NDIRECT := 0]));
      inodes := inodes[i := inodes[i].(addrs := inodes[i].addrs[NDIRECT := 0])];
    }

    /** The next word of the indirect block. */
    method FreeNext(i: nat, j: nat, ind: nat, ghost blocks0: seq<ByteBlock>, ghost inodes0: seq<Inode>,
                    ghost ptr0: Ptrs, ghost logged0: set<nat>)
      requires Truncating(blocks0, inodes0, ptr0, logged0, i, NDIRECT + j) && BlocksOk(lay, blocks0) && j < NINDIRECT
      requires Represents(lay, blocks0, inodes0[i], ptr0, i) && ind == inodes0[i].addrs[NDIRECT] >= lay.datastart
      modifies this`blocks, this`logged, this`ptr, this`owner
      ensures Truncating(blocks0, inodes0, ptr0, logged0, i, NDIRECT + j + 1)
    {
      IndirectWord(lay, blocks0, inodes0[i], ptr0, i, j);
      FreeIndirect(i, j, ind, blocks0, inodes0, ptr0, logged0);
    }

    /** The second loop. */
    method FreeEntries(i: nat, ind: nat, ghost blocks0: seq<ByteBlock>, ghost inodes0: seq<Inode>, ghost ptr0: Ptrs,
                       ghost logged0: set<nat>)
      requires Truncating(blocks0, inodes0, ptr0, logged0, i, NDIRECT) && BlocksOk(lay, blocks0)
      requires Represents(lay, blocks0, inodes0[i], ptr0, i) && ind == inodes0[i].addrs[NDIRECT] >= lay.datastart
      modifies this`blocks, this`logged, this`ptr, this`owner
      ensures Truncating(blocks0, inodes0, ptr0, logged0, i, MAXFILE)
    {
      var j := 0;
      while j < NINDIRECT
        invariant j <= NINDIRECT && Truncating(blocks0, inodes0, ptr0, logged0, i, NDIRECT + j)
      {
        FreeNext(i, j, ind, blocks0, inodes0, ptr0, logged0);
        j := j + 1;
      }
    }

    /** iput dropping the last reference to a file without links: the inode is free on disk as well. */
    method FreeInode(i: nat)
      requires Valid() && Synced() && i < lay.ninodes && inodes[i].nlink == 0
      modifies this
      ensures Valid() && Synced() && inodes == old(inodes)[i := inodes[i]] && inodes[i].kind == inodes[i].nlink == 0
      ensures File(i) == [] && Dropped(old(ptr), ptr, i, MAXFILE + 1)
      ensures logged <= old(logged) + Bitmaps(lay) + {lay.InodeBlock(i)}
      ensures RestSame(old(blocks), old(inodes), old(ptr), blocks, inodes, ptr, i)
    {
      Itrunc(i);
      KindConsistent(lay, blocks, inodes, ptr, owner, i);
      inodes := inodes[i := inodes[i].(kind := 0)];
      dinodes := dinodes[i := inodes[i]];
      logged := logged + {lay.InodeBlock(i)};
    }

    /** filewrite to a file: one operation for every three blocks, each small enough for the log.  `wrote`
        bytes reach the file, and the file offset moves with them. */
    method FileWrite(i: nat, src: seq<byte>, off0: nat, good: nat) returns (ret: int, off: nat, ghost wrote: nat)
      requires Valid() && Synced() && i < lay.ninodes && off0 < 0x1_0000_0000 && |src| < 0x8000_0000
      modifies this
      ensures FileState(old(blocks), old(inodes), old(ptr), i, old(File(i)), off0, src, wrote)
      ensures off == off0 + wrote && ret == (if wrote == |src| then |src| else -1)
    {
      ghost var blocks0, inodes0, ptr0, file := blocks, inodes, ptr, File(i);
      var done := 0;
      off, wrote := off0, 0;
      StartState(file, off0, src);
      while done < |src|
        invariant done == wrote <= |src| && off == off0 + wrote
                  && FileState(blocks0, inodes0, ptr0, i, file, off0, src, wrote)
        decreases |src| - done
      {
        var n1 := if |src| - done > 3 * BSIZE then 3 * BSIZE else |src| - done;
        var r: int;
        r, wrote := WriteOp(i, src, done, n1, off0, good, blocks0, inodes0, ptr0, file);
        if r > 0 {
          off := off + r;
        }
        if r != n1 { break; }
        done := done + r;
      }
      ret := if done == |src| then |src| else -1;
    }

    /** filewrite has written n bytes, and nothing else has happened to any file. */
    ghost predicate FileState(blocks0: seq<ByteBlock>, inodes0: seq<Inode>, ptr0: Ptrs, i: nat, file: seq<byte>,
                              off: nat, src: seq<byte>, n: nat)
      reads this
    {
      && Valid() && Synced() && i < lay.ninodes && Wrote(File(i), file, off, src, n) && (off > |file| ==> n == 0)
      && RestSame(blocks0, inodes0, ptr0, blocks, inodes, ptr, i)
    }

    /** One operation of filewrite. */
    method WriteOp(i: nat, src: seq<byte>, done: nat, n1: nat, off0: nat, good: nat, ghost blocks0: seq<ByteBlock>,
                   ghost inodes0: seq<Inode>, ghost ptr0: Ptrs, ghost file: seq<byte>)
      returns (r: int, ghost wrote: nat)
      requires FileState(blocks0, inodes0, ptr0, i, file, off0, src, done) && off0 < 0x1_0000_0000
               && |src| < 0x8000_0000
      requires 0 < n1 <= 3 * BSIZE && done + n1 <= |src|
      modifies this
      ensures r <= n1 && wrote == (if r > 0 then done + r else done)
              && FileState(blocks0, inodes0, ptr0, i, file, off0, src, wrote)
    {
      ghost var before, blocks1, inodes1, ptr1 := File(i), blocks, inodes, ptr;
      SmallFile(lay, blocks, inodes[i], ptr, i);
      r := LoggedWrite(i, src[done..done + n1], off0 + done, if good > done then good - done else 0);
      WroteOp(before, File(i), file, off0, src, done, n1, r);
      RestTrans(blocks0, inodes0, ptr0, blocks1, inodes1, ptr1, blocks, inodes, ptr, i);
      wrote := if r > 0 then done + r else done;
    }

    /** writei between begin_op and end_op: what it logs fits. */
    method LoggedWrite(i: nat, chunk: seq<byte>, off: nat, good: nat) returns (r: int)
      requires Valid() && Synced() && i < lay.ninodes && |chunk| <= 3 * BSIZE && off < 0x1_0000_0000
      modifies this
      ensures Valid() && Synced() && r <= |chunk| && RestSame(old(blocks), old(inodes), old(ptr), blocks,
                                                              inodes, ptr, i)
      ensures if r < 0 || off > |old(File(i))| then File(i) == old(File(i)) && r <= 0
              else File(i) == Overlay(old(File(i)), off, chunk[..r])
      ensures |logged| <= 6 + BitmapCount(lay) && (lay.size <= 3 * BPB ==> |logged| <= LogSpec.MAXOPBLOCKS - 1)
    {
      logged := {};
      ghost var data, turns;
      r, data, turns := Writei(i, chunk, off, good);
      if r >= 0 {
        LogBudget(lay, logged, data, Get(ptr, Slot(i, MAXFILE)), lay.InodeBlock(i), off, |chunk|);
      }
    }
  }
}
