/** What the file system stores inside a block of BSIZE bytes: little-endian 32-bit words in an indirect
block, single bits in a bitmap block (kernel/fs.h). */
module DiskBytes {
  import opened ByteString

  const BSIZE: nat := 1024
  const NINDIRECT: nat := BSIZE / 4
  const BPB: nat := BSIZE * 8

  type ByteBlock = seq<byte>

  ghost predicate IsBlock(b: ByteBlock) {
    |b| == BSIZE
  }

  function Zeroed(): (b: ByteBlock)
    ensures IsBlock(b) && forall i :: 0 <= i < BSIZE ==> b[i] == 0
  {
    seq(BSIZE, i => 0)
  }

  // ---- Words ----------------------------------------------------------------------------------

  function Word(b: ByteBlock, j: nat): nat
    requires IsBlock(b) && j < NINDIRECT
  {
    var b0: nat, b1: nat, b2: nat, b3: nat := b[4 * j], b[4 * j + 1], b[4 * j + 2], b[4 * j + 3];
    b0 + 0x100 * b1 + 0x1_0000 * b2 + 0x100_0000 * b3
  }

  function PutWord(b: ByteBlock, j: nat, x: nat): (r: ByteBlock)
    requires IsBlock(b) && j < NINDIRECT
    ensures IsBlock(r)
  {
    b[4 * j := x % 0x100][4 * j + 1 := x / 0x100 % 0x100]
     [4 * j + 2 := x / 0x1_0000 % 0x100][4 * j + 3 := x / 0x100_0000 % 0x100]
  }

  /** Storing a word: it can be read back, and the other words are as before. */
  lemma PutWordGet(b: ByteBlock, j: nat, x: nat, k: nat)
    requires IsBlock(b) && j < NINDIRECT && k < NINDIRECT && x < 0x1_0000_0000
    ensures Word(PutWord(b, j, x), k) == if k == j then x else Word(b, k)
  {
    if k == j {
      FourBytes(x);
    }
  }

  lemma FourBytes(x: nat)
    requires x < 0x1_0000_0000
    ensures x == x % 0x100 + 0x100 * (x / 0x100 % 0x100) + 0x1_0000 * (x / 0x1_0000 % 0x100)
            + 0x100_0000 * (x / 0x100_0000 % 0x100)
  {
    var y := x / 0x100;
    var z := y / 0x100;
    assert x / 0x1_0000 == z && x / 0x100_0000 == z / 0x100;
  }

  lemma ZeroWord(k: nat)
    requires k < NINDIRECT
    ensures Word(Zeroed(), k) == 0
  {
  }

  // ---- Bits -----------------------------------------------------------------------------------

  /** 1 << k. */
  function Mask(k: nat): (m: nat)
    ensures m > 0
  {
    if k == 0 then 1 else 2 * Mask(k - 1)
  }

  /** Bit k of x. */
  predicate Bit(x: nat, k: nat) {
    if k == 0 then x % 2 == 1 else Bit(x / 2, k - 1)
  }

  predicate BitAt(b: ByteBlock, i: nat)
    requires IsBlock(b) && i < BPB
  {
    Bit(b[i / 8], i % 8)
  }

  /** A bit that is clear can be added without a carry: the other bits stay. */
  lemma {:induction false} AddBit(x: nat, k: nat, j: nat)
    requires !Bit(x, k)
    ensures Bit(x + Mask(k), j) <==> j == k || Bit(x, j)
  {
    if k > 0 {
      assert (x + Mask(k)) / 2 == x / 2 + Mask(k - 1);
      if j > 0 {
        AddBit(x / 2, k - 1, j - 1);
      }
    }
  }

  lemma {:induction false} AddBitFits(x: nat, k: nat, n: nat)
    requires !Bit(x, k) && k < n && x < Mask(n)
    ensures x + Mask(k) < Mask(n)
  {
    Doubled(x, 0, Mask(n - 1));
    if k > 0 {
      AddBitFits(x / 2, k - 1, n - 1);
      Doubled(x, Mask(k - 1), Mask(n - 1));
    }
  }

  lemma Doubled(x: nat, m: nat, bound: nat)
    ensures x / 2 + m < bound <==> x + 2 * m < 2 * bound
  {
  }

  /** A bit that is set can be taken away: the other bits stay. */
  lemma {:induction false} SubBit(x: nat, k: nat, j: nat)
    requires Bit(x, k)
    ensures x >= Mask(k) && (Bit(x - Mask(k), j) <==> j != k && Bit(x, j))
  {
    if k > 0 {
      SubBit(x / 2, k - 1, if j > 0 then j - 1 else 0);
      assert (x - Mask(k)) / 2 == x / 2 - Mask(k - 1);
    }
  }

  lemma ByteMask()
    ensures Mask(8) == 256
  {
    assert Mask(4) == 16;
    assert Mask(6) == 64;
  }

  /** data[i/8] |= m, for a clear bit. */
  function SetBit(b: ByteBlock, i: nat): (r: ByteBlock)
    requires IsBlock(b) && i < BPB && !BitAt(b, i)
    ensures IsBlock(r)
  {
    ByteMask();
    AddBitFits(b[i / 8], i % 8, 8);
    b[i / 8 := b[i / 8] + Mask(i % 8)]
  }

  /** data[i/8] &= ~m, for a set bit. */
  function ClearBit(b: ByteBlock, i: nat): (r: ByteBlock)
    requires IsBlock(b) && i < BPB && BitAt(b, i)
    ensures IsBlock(r)
  {
    SubBit(b[i / 8], i % 8, 0);
    b[i / 8 := b[i / 8] - Mask(i % 8)]
  }

  lemma SetBitGet(b: ByteBlock, i: nat, j: nat)
    requires IsBlock(b) && i < BPB && j < BPB && !BitAt(b, i)
    ensures BitAt(SetBit(b, i), j) <==> j == i || BitAt(b, j)
  {
    AddBit(b[i / 8], i % 8, j % 8);
  }

  lemma ClearBitGet(b: ByteBlock, i: nat, j: nat)
    requires IsBlock(b) && i < BPB && j < BPB && BitAt(b, i)
    ensures BitAt(ClearBit(b, i), j) <==> j != i && BitAt(b, j)
  {
    SubBit(b[i / 8], i % 8, j % 8);
  }
}
