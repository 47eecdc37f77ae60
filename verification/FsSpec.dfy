/** Which block belongs to which file (kernel/fs.c, kernel/fs.h).  The pointers of all inodes, direct and
through the indirect blocks, form one injective map from file slots to blocks; its inverse says who
owns a block; the bitmap marks exactly the blocks that have an owner. */
module FsSpec {
  import opened ByteString
  import opened DiskBytes

  const NDIRECT: nat := 12
  const MAXFILE: nat := NDIRECT + NINDIRECT
  const IPB: nat := 16

  /** The place of a block in a file; index MAXFILE stands for the indirect block itself. */
  datatype Slot = Slot(inum: nat, index: nat)

  datatype Inode = Inode(kind: nat, nlink: nat, size: nat, addrs: seq<nat>)

  datatype Superblock = Superblock(size: nat, ninodes: nat, inodestart: nat, bmapstart: nat, datastart: nat) {
    /** As mkfs lays out the disk. */
    ghost predicate Ok() {
      && inodestart + ninodes / IPB + 1 <= bmapstart && bmapstart + size / BPB + 1 == datastart <= size < 0x1_0000_0000
    }

    function BitmapBlock(b: nat): nat {
      b / BPB + bmapstart
    }

    function InodeBlock(i: nat): nat {
      i / IPB + inodestart
    }
  }

  type Ptrs = map<Slot, nat>
  type Owners = map<nat, Slot>

  function Get(ptr: Ptrs, s: Slot): nat {
    if s in ptr then ptr[s] else 0
  }

  /** ptr and owner are inverse to each other, over data blocks and existing inodes. */
  ghost predicate Linked(lay: Superblock, ptr: Ptrs, owner: Owners) {
    && (forall s :: s in ptr ==> ptr[s] in owner && owner[ptr[s]] == s && s.inum < lay.ninodes && s.index <= MAXFILE)
    && (forall b :: b in owner ==> owner[b] in ptr && ptr[owner[b]] == b && lay.datastart <= b < lay.size)
  }

  ghost predicate BlocksOk(lay: Superblock, blocks: seq<ByteBlock>) {
    lay.Ok() && |blocks| == lay.size && forall b :: 0 <= b < |blocks| ==> IsBlock(blocks[b])
  }

  /** The bitmap bit of block b. */
  ghost predicate Used(lay: Superblock, blocks: seq<ByteBlock>, b: nat)
    requires BlocksOk(lay, blocks) && b < lay.size
  {
    BitAt(blocks[lay.BitmapBlock(b)], b % BPB)
  }

  /** The bitmap marks the blocks before the data area, those with an owner, and a block on its way
      between the two (0: none). */
  ghost predicate Marked(lay: Superblock, blocks: seq<ByteBlock>, owner: Owners, spare: nat)
    requires BlocksOk(lay, blocks)
  {
    forall b :: 0 <= b < lay.size ==> (Used(lay, blocks, b) <==> b < lay.datastart || b in owner || b == spare)
  }

  /** Inode i represents the pointers of its file, and its file has no hole below its size. */
  ghost predicate Represents(lay: Superblock, blocks: seq<ByteBlock>, ino: Inode, ptr: Ptrs, i: nat)
    requires BlocksOk(lay, blocks)
  {
    && |ino.addrs| == NDIRECT + 1 && ino.size <= MAXFILE * BSIZE
    && (forall k :: 0 <= k < NDIRECT ==> ino.addrs[k] == Get(ptr, Slot(i, k)))
    && ino.addrs[NDIRECT] == Get(ptr, Slot(i, MAXFILE)) < lay.size
    && (forall k :: NDIRECT <= k < MAXFILE ==>
          Get(ptr, Slot(i, k)) == Indirect(lay, blocks, ino.addrs[NDIRECT], k - NDIRECT))
    && (forall k :: 0 <= k && k * BSIZE < ino.size ==> Slot(i, k) in ptr)
  }

  /** Word j of indirect block a. */
  ghost function Indirect(lay: Superblock, blocks: seq<ByteBlock>, a: nat, j: nat): nat
    requires BlocksOk(lay, blocks) && a < lay.size && j < NINDIRECT
  {
    if a == 0 then 0 else Word(blocks[a], j)
  }

  /** The file system is consistent; inode `busy` may be in the middle of a change (>= ninodes: none). */
  ghost predicate Consistent(lay: Superblock, blocks: seq<ByteBlock>, inodes: seq<Inode>, ptr: Ptrs, owner: Owners,
                             spare: nat, busy: nat) {
    && BlocksOk(lay, blocks) && |inodes| == lay.ninodes && Linked(lay, ptr, owner) && Marked(lay, blocks, owner, spare)
    && (spare != 0 ==> lay.datastart <= spare < lay.size && spare !in owner)
    && (forall i :: 0 <= i < lay.ninodes && i != busy ==> Represents(lay, blocks, inodes[i], ptr, i))
  }

  /** The bytes of file i. */
  ghost function Contents(blocks: seq<ByteBlock>, ptr: Ptrs, i: nat, size: nat): (c: seq<byte>)
    ensures |c| == size
  {
    seq(size, o requires o >= 0 => ByteAt(blocks, Get(ptr, Slot(i, o / BSIZE)), o % BSIZE))
  }

  ghost function ByteAt(blocks: seq<ByteBlock>, b: nat, o: nat): byte {
    if b < |blocks| && o < |blocks[b]| then blocks[b][o] else 0
  }

  /** The data blocks of every file are where and what they were; files may have gained blocks. */
  ghost predicate SameData(blocks: seq<ByteBlock>, blocks': seq<ByteBlock>, ptr: Ptrs, ptr': Ptrs) {
    |blocks'| == |blocks| &&
    forall s :: s in ptr && s.index < MAXFILE && ptr[s] < |blocks| ==>
      s in ptr' && ptr'[s] == ptr[s] && blocks'[ptr[s]] == blocks[ptr[s]]
  }

  // ---- Framing --------------------------------------------------------------------------------------

  /** Inode i represents the same pointers if its indirect block and its slots are unchanged. */
  lemma RepresentsSame(lay: Superblock, blocks: seq<ByteBlock>, blocks': seq<ByteBlock>, ino: Inode, ptr: Ptrs,
                       ptr': Ptrs, i: nat)
    requires BlocksOk(lay, blocks) && BlocksOk(lay, blocks') && Represents(lay, blocks, ino, ptr, i)
    requires ino.addrs[NDIRECT] != 0 ==> blocks'[ino.addrs[NDIRECT]] == blocks[ino.addrs[NDIRECT]]
    requires forall k :: 0 <= k <= MAXFILE ==> Get(ptr', Slot(i, k)) == Get(ptr, Slot(i, k))
    requires forall s :: s in ptr && s.inum == i ==> s in ptr'
    ensures Represents(lay, blocks', ino, ptr', i)
  {
    forall k | NDIRECT <= k < MAXFILE
      ensures Get(ptr', Slot(i, k)) == Indirect(lay, blocks', ino.addrs[NDIRECT], k - NDIRECT)
    {
      assert Get(ptr, Slot(i, k)) == Indirect(lay, blocks, ino.addrs[NDIRECT], k - NDIRECT);
    }
  }

  /** The bitmap block of b lies between the inodes and the data. */
  lemma BitmapRange(lay: Superblock, b: nat)
    requires lay.Ok() && b < lay.size
    ensures lay.bmapstart <= lay.BitmapBlock(b) < lay.datastart
  {
  }

  // ---- An empty file system -------------------------------------------------------------------------

  /** Zeroed blocks, with the first n marked in the bitmap. */
  function Blank(lay: Superblock, n: nat): (blocks: seq<ByteBlock>)
    requires lay.Ok() && n <= lay.size
    ensures BlocksOk(lay, blocks) && forall b :: 0 <= b < lay.size ==> (Used(lay, blocks, b) <==> b < n)
  {
    if n == 0 then
      BlankBits(lay);
      seq(lay.size, i => Zeroed())
    else
      var blocks, at := Blank(lay, n - 1), lay.BitmapBlock(n - 1);
      BitmapRange(lay, n - 1);
      MarkOne(lay, blocks, n - 1);
      blocks[at := SetBit(blocks[at], (n - 1) % BPB)]
  }

  lemma BlankBits(lay: Superblock)
    requires lay.Ok()
    ensures var blocks := seq(lay.size, i => Zeroed());
            BlocksOk(lay, blocks) && forall b :: 0 <= b < lay.size ==> !Used(lay, blocks, b)
  {
    var blocks := seq(lay.size, i => Zeroed());
    forall b | 0 <= b < lay.size ensures !Used(lay, blocks, b) {
      BitmapRange(lay, b);
      NoBit(b % BPB % 8);
    }
  }

  lemma {:induction false} NoBit(k: nat)
    ensures !Bit(0, k)
  {
    if k > 0 {
      NoBit(k - 1);
    }
  }

  lemma MarkOne(lay: Superblock, blocks: seq<ByteBlock>, b: nat)
    requires BlocksOk(lay, blocks) && b < lay.size && !Used(lay, blocks, b) && lay.BitmapBlock(b) < lay.size
    ensures var at := lay.BitmapBlock(b); var blocks' := blocks[at := SetBit(blocks[at], b % BPB)];
            BlocksOk(lay, blocks') && forall x :: 0 <= x < lay.size ==>
                                                    (Used(lay, blocks', x) <==> x == b || Used(lay, blocks, x))
  {
    var at := lay.BitmapBlock(b);
    var blocks' := blocks[at := SetBit(blocks[at], b % BPB)];
    forall x | 0 <= x < lay.size ensures Used(lay, blocks', x) <==> x == b || Used(lay, blocks, x) {
      if lay.BitmapBlock(x) == at {
        SetBitGet(blocks[at], b % BPB, x % BPB);
        SameBit(x, b);
      }
    }
  }

  lemma SameBit(x: nat, b: nat)
    requires x / BPB == b / BPB
    ensures x % BPB == b % BPB <==> x == b
  {
  }

  /** The image before any file has been made. */
  lemma BlankConsistent(lay: Superblock, inodes: seq<Inode>)
    requires lay.Ok() && |inodes| == lay.ninodes && forall i ::
             0 <= i < lay.ninodes ==> inodes[i] == Inode(0, 0, 0, seq(NDIRECT + 1, k => 0))
    ensures Consistent(lay, Blank(lay, lay.datastart), inodes, map[], map[], 0, lay.ninodes)
  {
  }

  // ---- balloc and bfree -----------------------------------------------------------------------------

  /** The disk after balloc has taken block b. */
  ghost function Taken(lay: Superblock, blocks: seq<ByteBlock>, b: nat): (blocks': seq<ByteBlock>)
    requires BlocksOk(lay, blocks) && lay.datastart <= b < lay.size && !Used(lay, blocks, b)
    ensures BlocksOk(lay, blocks')
  {
    blocks[lay.BitmapBlock(b) := SetBit(blocks[lay.BitmapBlock(b)], b % BPB)][b := Zeroed()]
  }

  lemma TakenUsed(lay: Superblock, blocks: seq<ByteBlock>, b: nat, x: nat)
    requires BlocksOk(lay, blocks) && lay.datastart <= b < lay.size && !Used(lay, blocks, b) && x < lay.size
    ensures Used(lay, Taken(lay, blocks, b), x) <==> x == b || Used(lay, blocks, x)
  {
    BitmapRange(lay, b);
    BitmapRange(lay, x);
    if lay.BitmapBlock(x) == lay.BitmapBlock(b) {
      SetBitGet(blocks[lay.BitmapBlock(b)], b % BPB, x % BPB);
      assert x % BPB == b % BPB ==> x == b;
    }
  }

  lemma TakeMarked(lay: Superblock, blocks: seq<ByteBlock>, owner: Owners, b: nat)
    requires BlocksOk(lay, blocks) && Marked(lay, blocks, owner, 0) && lay.datastart <= b < lay.size
             && !Used(lay, blocks, b)
    ensures b !in owner && Marked(lay, Taken(lay, blocks, b), owner, b)
  {
    forall x | 0 <= x < lay.size ensures Used(lay, Taken(lay, blocks, b), x) <==>
        x < lay.datastart || x in owner || x == b {
      TakenUsed(lay, blocks, b, x);
    }
  }

  /** balloc hands out a block that had no owner, and touches nothing that anyone can see. */
  lemma TakeConsistent(lay: Superblock, blocks: seq<ByteBlock>, inodes: seq<Inode>, ptr: Ptrs, owner: Owners, b: nat)
    requires Consistent(lay, blocks, inodes, ptr, owner, 0, lay.ninodes) && lay.datastart <= b < lay.size
             && !Used(lay, blocks, b)
    ensures Consistent(lay, Taken(lay, blocks, b), inodes, ptr, owner, b, lay.ninodes)
    ensures SameData(blocks, Taken(lay, blocks, b), ptr, ptr)
  {
    var blocks' := Taken(lay, blocks, b);
    TakeMarked(lay, blocks, owner, b);
    BitmapRange(lay, b);
    forall i | 0 <= i < lay.ninodes ensures Represents(lay, blocks', inodes[i], ptr, i) {
      assert Represents(lay, blocks, inodes[i], ptr, i);
      RepresentsSame(lay, blocks, blocks', inodes[i], ptr, ptr, i);
    }
  }

  /** The disk after bfree has given block b back. */
  ghost function Returned(lay: Superblock, blocks: seq<ByteBlock>, b: nat): (blocks': seq<ByteBlock>)
    requires BlocksOk(lay, blocks) && lay.datastart <= b < lay.size && Used(lay, blocks, b)
    ensures BlocksOk(lay, blocks')
  {
    blocks[lay.BitmapBlock(b) := ClearBit(blocks[lay.BitmapBlock(b)], b % BPB)]
  }

  lemma ReturnedUsed(lay: Superblock, blocks: seq<ByteBlock>, b: nat, x: nat)
    requires BlocksOk(lay, blocks) && lay.datastart <= b < lay.size && Used(lay, blocks, b) && x < lay.size
    ensures Used(lay, Returned(lay, blocks, b), x) <==> x != b && Used(lay, blocks, x)
  {
    BitmapRange(lay, b);
    BitmapRange(lay, x);
    if lay.BitmapBlock(x) == lay.BitmapBlock(b) {
      ClearBitGet(blocks[lay.BitmapBlock(b)], b % BPB, x % BPB);
      assert x % BPB == b % BPB ==> x == b;
    }
  }

  lemma ReturnMarked(lay: Superblock, blocks: seq<ByteBlock>, owner: Owners, b: nat)
    requires BlocksOk(lay, blocks) && Marked(lay, blocks, owner, 0) && lay.datastart <= b < lay.size && b in owner
    ensures Used(lay, blocks, b) && Marked(lay, Returned(lay, blocks, b), owner - {b}, 0)
  {
    forall x | 0 <= x < lay.size
      ensures Used(lay, Returned(lay, blocks, b), x) <==> x < lay.datastart || x in owner - {b} || x == 0
    {
      ReturnedUsed(lay, blocks, b, x);
    }
  }

  lemma UnlinkSlot(lay: Superblock, ptr: Ptrs, owner: Owners, s: Slot)
    requires Linked(lay, ptr, owner) && s in ptr
    ensures Linked(lay, ptr - {s}, owner - {ptr[s]})
  {
  }

  /** Freeing the block in slot s of the busy inode takes the slot out of the pointers. */
  lemma ReturnConsistent(lay: Superblock, blocks: seq<ByteBlock>, inodes: seq<Inode>, ptr: Ptrs, owner: Owners, s: Slot)
    requires Consistent(lay, blocks, inodes, ptr, owner, 0, s.inum) && s in ptr
    ensures lay.datastart <= ptr[s] < lay.size && Used(lay, blocks, ptr[s])
    ensures Consistent(lay, Returned(lay, blocks, ptr[s]), inodes, ptr - {s}, owner - {ptr[s]}, 0, s.inum)
  {
    var b := ptr[s];
    var blocks', ptr', owner' := Returned(lay, blocks, b), ptr - {s}, owner - {b};
    UnlinkSlot(lay, ptr, owner, s);
    ReturnMarked(lay, blocks, owner, b);
    BitmapRange(lay, b);
    forall i | 0 <= i < lay.ninodes && i != s.inum ensures Represents(lay, blocks', inodes[i], ptr', i) {
      assert Represents(lay, blocks, inodes[i], ptr, i);
      RepresentsSame(lay, blocks, blocks', inodes[i], ptr, ptr', i);
    }
  }

  // ---- bmap -------------------------------------------------------------------------------------------

  /** A spare block becomes the block of slot s. */
  lemma LinkSlot(lay: Superblock, ptr: Ptrs, owner: Owners, s: Slot, b: nat)
    requires Linked(lay, ptr, owner) && s !in ptr && b !in owner && s.inum < lay.ninodes && s.index <= MAXFILE
             && lay.datastart <= b < lay.size
    ensures Linked(lay, ptr[s := b], owner[b := s])
  {
  }

  ghost function SetAddr(inodes: seq<Inode>, i: nat, k: nat, b: nat): seq<Inode>
    requires i < |inodes| && k < |inodes[i].addrs|
  {
    inodes[i := inodes[i].(addrs := inodes[i].addrs[k := b])]
  }

  /** Blocks of the data area are not part of the bitmap. */
  lemma DataMarked(lay: Superblock, blocks: seq<ByteBlock>, owner: Owners, spare: nat, a: nat, data: ByteBlock)
    requires BlocksOk(lay, blocks) && Marked(lay, blocks, owner, spare) && lay.datastart <= a < lay.size
             && IsBlock(data)
    ensures BlocksOk(lay, blocks[a := data]) && Marked(lay, blocks[a := data], owner, spare)
  {
    var blocks' := blocks[a := data];
    forall x | 0 <= x < lay.size ensures Used(lay, blocks', x) <==> x < lay.datastart || x in owner || x == spare {
      BitmapRange(lay, x);
      assert Used(lay, blocks', x) <==> Used(lay, blocks, x);
    }
  }

  /** ip->addrs[k] = b: a direct block, or with k == NDIRECT the (zeroed) indirect block. */
  lemma AttachAddr(lay: Superblock, blocks: seq<ByteBlock>, inodes: seq<Inode>, ptr: Ptrs, owner: Owners, i: nat,
                   k: nat, b: nat)
    requires Consistent(lay, blocks, inodes, ptr, owner, b, lay.ninodes) && i < lay.ninodes && k <= NDIRECT && b != 0
    requires blocks[b] == Zeroed() && |inodes[i].addrs| == NDIRECT + 1 && inodes[i].addrs[k] == 0
    ensures var s := Slot(i, if k == NDIRECT then MAXFILE else k);
            && s !in ptr
            && Consistent(lay, blocks, SetAddr(inodes, i, k, b), ptr[s := b], owner[b := s], 0, lay.ninodes)
  {
    var s := Slot(i, if k == NDIRECT then MAXFILE else k);
    assert Represents(lay, blocks, inodes[i], ptr, i);
    assert Get(ptr, s) == 0;
    LinkSlot(lay, ptr, owner, s, b);
    var inodes', ptr' := SetAddr(inodes, i, k, b), ptr[s := b];
    forall j | 0 <= j < lay.ninodes ensures Represents(lay, blocks, inodes'[j], ptr', j) {
      assert Represents(lay, blocks, inodes[j], ptr, j);
      if j == i {
        AttachRepresents(lay, blocks, inodes[i], ptr, i, k, b);
      } else {
        RepresentsSame(lay, blocks, blocks, inodes[j], ptr, ptr', j);
      }
    }
  }

  lemma AttachRepresents(lay: Superblock, blocks: seq<ByteBlock>, ino: Inode, ptr: Ptrs, i: nat, k: nat, b: nat)
    requires BlocksOk(lay, blocks) && Represents(lay, blocks, ino, ptr, i) && k <= NDIRECT && 0 < b < lay.size
    requires blocks[b] == Zeroed() && ino.addrs[k] == 0
    ensures Represents(lay, blocks, ino.(addrs := ino.addrs[k := b]),
                       ptr[Slot(i, if k == NDIRECT then MAXFILE else k) := b], i)
  {
    var s := Slot(i, if k == NDIRECT then MAXFILE else k);
    var ino', ptr' := ino.(addrs := ino.addrs[k := b]), ptr[s := b];
    forall x | NDIRECT <= x < MAXFILE
      ensures Get(ptr', Slot(i, x)) == Indirect(lay, blocks, ino'.addrs[NDIRECT], x - NDIRECT)
    {
      assert Get(ptr, Slot(i, x)) == Indirect(lay, blocks, ino.addrs[NDIRECT], x - NDIRECT);
      if k == NDIRECT {
        ZeroWord(x - NDIRECT);
      }
    }
  }

  /** a[j] = b in the indirect block of file i. */
  lemma AttachIndirect(lay: Superblock, blocks: seq<ByteBlock>, inodes: seq<Inode>, ptr: Ptrs, owner: Owners, i: nat,
                       j: nat, b: nat)
    requires Consistent(lay, blocks, inodes, ptr, owner, b, lay.ninodes) && i < lay.ninodes && j < NINDIRECT && b != 0
    requires Slot(i, MAXFILE) in ptr && Slot(i, NDIRECT + j) !in ptr
    ensures var a := ptr[Slot(i, MAXFILE)]; var s := Slot(i, NDIRECT + j);
            && a < lay.size && a != b
            && Consistent(lay, blocks[a := PutWord(blocks[a], j, b)], inodes, ptr[s := b], owner[b := s], 0,
                          lay.ninodes)
            && SameData(blocks, blocks[a := PutWord(blocks[a], j, b)], ptr, ptr[s := b])
  {
    var a, s := ptr[Slot(i, MAXFILE)], Slot(i, NDIRECT + j);
    var blocks', ptr', owner' := blocks[a := PutWord(blocks[a], j, b)], ptr[s := b], owner[b := s];
    LinkSlot(lay, ptr, owner, s, b);
    DataMarked(lay, blocks, owner, b, a, PutWord(blocks[a], j, b));
    SpareOwned(lay, blocks', owner, b, s);
    IndirectIsNoData(lay, blocks, ptr, owner, i, j, b);
    forall k | 0 <= k < lay.ninodes ensures Represents(lay, blocks', inodes[k], ptr', k) {
      IndirectOne(lay, blocks, inodes[k], ptr, owner, i, j, b, k);
    }
  }

  /** The spare block now has an owner. */
  lemma SpareOwned(lay: Superblock, blocks: seq<ByteBlock>, owner: Owners, b: nat, s: Slot)
    requires BlocksOk(lay, blocks) && Marked(lay, blocks, owner, b) && b != 0
    ensures Marked(lay, blocks, owner[b := s], 0)
  {
  }

  /** No file has the indirect block among its data blocks. */
  lemma IndirectIsNoData(lay: Superblock, blocks: seq<ByteBlock>, ptr: Ptrs, owner: Owners, i: nat, j: nat, b: nat)
    requires BlocksOk(lay, blocks) && Linked(lay, ptr, owner) && j < NINDIRECT && b < lay.size
    requires Slot(i, MAXFILE) in ptr && Slot(i, NDIRECT + j) !in ptr
    ensures var a := ptr[Slot(i, MAXFILE)];
            a < lay.size && SameData(blocks, blocks[a := PutWord(blocks[a], j, b)], ptr, ptr[Slot(i, NDIRECT + j) := b])
  {
  }

  lemma IndirectOne(lay: Superblock, blocks: seq<ByteBlock>, ino: Inode, ptr: Ptrs, owner: Owners, i: nat, j: nat,
                    b: nat, k: nat)
    requires BlocksOk(lay, blocks) && Linked(lay, ptr, owner) && Represents(lay, blocks, ino, ptr, k) && j < NINDIRECT
             && 0 < b < lay.size
    requires Slot(i, MAXFILE) in ptr && Slot(i, NDIRECT + j) !in ptr
    ensures var a := ptr[Slot(i, MAXFILE)];
            var blocks' := blocks[a := PutWord(blocks[a], j, b)];
            BlocksOk(lay, blocks') && Represents(lay, blocks', ino, ptr[Slot(i, NDIRECT + j) := b], k)
  {
    var a := ptr[Slot(i, MAXFILE)];
    if k == i {
      IndirectRepresents(lay, blocks, ino, ptr, i, j, b);
    } else {
      OtherIndirect(lay, blocks, ino, ptr, owner, i, k);
      RepresentsSame(lay, blocks, blocks[a := PutWord(blocks[a], j, b)], ino, ptr, ptr[Slot(i, NDIRECT + j) := b], k);
    }
  }

  /** Two files have different indirect blocks. */
  lemma OtherIndirect(lay: Superblock, blocks: seq<ByteBlock>, ino: Inode, ptr: Ptrs, owner: Owners, i: nat, k: nat)
    requires Linked(lay, ptr, owner) && BlocksOk(lay, blocks) && Represents(lay, blocks, ino, ptr, k) && k != i
             && Slot(i, MAXFILE) in ptr
    ensures ino.addrs[NDIRECT] != 0 ==> ino.addrs[NDIRECT] != ptr[Slot(i, MAXFILE)]
  {
    if ino.addrs[NDIRECT] != 0 {
      assert Slot(k, MAXFILE) in ptr;
      assert owner[ptr[Slot(k, MAXFILE)]] == Slot(k, MAXFILE);
    }
  }

  lemma IndirectRepresents(lay: Superblock, blocks: seq<ByteBlock>, ino: Inode, ptr: Ptrs, i: nat, j: nat, b: nat)
    requires BlocksOk(lay, blocks) && Represents(lay, blocks, ino, ptr, i) && j < NINDIRECT && 0 < b < lay.size
    requires Slot(i, MAXFILE) in ptr && ino.addrs[NDIRECT] != 0
    ensures var a := ino.addrs[NDIRECT];
            var blocks' := blocks[a := PutWord(blocks[a], j, b)];
            BlocksOk(lay, blocks') && Represents(lay, blocks', ino, ptr[Slot(i, NDIRECT + j) := b], i)
  {
    var a := ino.addrs[NDIRECT];
    var blocks', ptr' := blocks[a := PutWord(blocks[a], j, b)], ptr[Slot(i, NDIRECT + j) := b];
    forall x | NDIRECT <= x < MAXFILE ensures Get(ptr', Slot(i, x)) == Indirect(lay, blocks', a, x - NDIRECT) {
      PutWordGet(blocks[a], j, b, x - NDIRECT);
      assert Get(ptr, Slot(i, x)) == Indirect(lay, blocks, a, x - NDIRECT);
    }
  }

  // ---- Writing data -----------------------------------------------------------------------------------

  /** Storing into a data block disturbs neither the bitmap nor any pointer. */
  lemma WriteConsistent(lay: Superblock, blocks: seq<ByteBlock>, inodes: seq<Inode>, ptr: Ptrs, owner: Owners, s: Slot,
                        data: ByteBlock)
    requires Consistent(lay, blocks, inodes, ptr, owner, 0, lay.ninodes) && s in ptr && s.index < MAXFILE
             && IsBlock(data)
    ensures ptr[s] < lay.size && Consistent(lay, blocks[ptr[s] := data], inodes, ptr, owner, 0, lay.ninodes)
  {
    var b := ptr[s];
    var blocks' := blocks[b := data];
    DataMarked(lay, blocks, owner, 0, b, data);
    forall k | 0 <= k < lay.ninodes ensures Represents(lay, blocks', inodes[k], ptr, k) {
      assert Represents(lay, blocks, inodes[k], ptr, k);
      assert inodes[k].addrs[NDIRECT] != 0 ==> Slot(k, MAXFILE) in ptr
                                               && owner[inodes[k].addrs[NDIRECT]] == Slot(k, MAXFILE);
      RepresentsSame(lay, blocks, blocks', inodes[k], ptr, ptr, k);
    }
  }
}
