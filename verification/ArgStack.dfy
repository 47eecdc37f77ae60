/** The argument stack of exec (kernel/exec.c): the strings from the top of the page downwards, each on a
multiple of 16, and below them the array of pointers to them. */
module ArgStack {
  import opened ByteString
  import opened PageTable

  const MAXARG: nat := 32

  /** sp -= n, and then sp -= sp % 16. */
  function Lower(sp: int, n: nat): int {
    (sp - n) - (sp - n) % 16
  }

  function RoundUp(n: nat): (r: nat)
    ensures n <= r
  {
    (n + 15) / 16 * 16
  }

  lemma LowerIs(sp: int, n: nat)
    requires sp % 16 == 0
    ensures Lower(sp, n) == sp - RoundUp(n) && Lower(sp, n) % 16 == 0
  {
  }

  /** What the strings take up. */
  function Room(args: seq<seq<byte>>): (n: nat) {
    if args == [] then 0 else Room(args[..|args| - 1]) + RoundUp(|args[|args| - 1]| + 1)
  }

  /** What the strings and the array take up. */
  function Total(args: seq<seq<byte>>): (n: nat)
    ensures n >= Room(args) + 8 * (|args| + 1)
  {
    Room(args) + RoundUp(8 * (|args| + 1))
  }

  lemma {:induction false} RoomAligned(args: seq<seq<byte>>)
    ensures Room(args) % 16 == 0
  {
    if args != [] {
      RoomAligned(args[..|args| - 1]);
      AlignedSum(Room(args[..|args| - 1]), |args[|args| - 1]| + 1);
    }
  }

  lemma AlignedSum(a: nat, n: nat)
    requires a % 16 == 0
    ensures (a + RoundUp(n)) % 16 == 0
  {
  }

  lemma TotalAligned(args: seq<seq<byte>>, top: nat)
    requires Total(args) <= top
    ensures (top - Total(args)) % 16 == top % 16
  {
    RoomAligned(args);
    AlignedSum(Room(args), 8 * (|args| + 1));
    DropAligned(top, Total(args));
  }

  lemma DropAligned(top: nat, n: nat)
    requires n % 16 == 0 && n <= top
    ensures (top - n) % 16 == top % 16
  {
  }

  /** The arguments fit into the page, and into the array that exec builds. */
  predicate Fits(args: seq<seq<byte>>) {
    |args| < MAXARG && Total(args) <= PGSIZE
  }

  /** Where string k begins, counted from the start of the page. */
  function Offset(args: seq<seq<byte>>, k: nat): (o: int)
    requires k < |args|
  {
    PGSIZE - Room(args[..k + 1])
  }

  lemma {:induction false} RoomGrows(args: seq<seq<byte>>, k: nat)
    requires k <= |args|
    ensures Room(args[..k]) <= Room(args)
  {
    if k < |args| {
      var n := |args| - 1;
      RoomGrows(args[..n], k);
      assert args[..n][..k] == args[..k];
    } else {
      assert args[..k] == args;
    }
  }

  lemma RoomNext(args: seq<seq<byte>>, k: nat)
    requires k < |args|
    ensures Room(args[..k + 1]) == Room(args[..k]) + RoundUp(|args[k]| + 1)
  {
    assert args[..k + 1][..k] == args[..k];
  }

  /** The page with the strings. */
  function Strings(args: seq<seq<byte>>): (page: seq<byte>)
    requires Room(args) <= PGSIZE
    ensures |page| == PGSIZE
  {
    if args == [] then ZeroBytes(PGSIZE)
    else
      var n := |args| - 1;
      Splice(Strings(args[..n]), PGSIZE - Room(args), args[n] + [0])
  }

  lemma StringsNext(args: seq<seq<byte>>, k: nat)
    requires k < |args| && Room(args[..k + 1]) <= PGSIZE
    ensures Room(args[..k]) <= PGSIZE
    ensures PGSIZE - Room(args[..k + 1]) + |args[k]| + 1 <= PGSIZE
    ensures Strings(args[..k + 1]) == Splice(Strings(args[..k]), PGSIZE - Room(args[..k + 1]), args[k] + [0])
  {
    RoomNext(args, k);
    assert args[..k + 1][..k] == args[..k];
  }

  /** The addresses of the strings, when the page begins at address `base`, and the null pointer. */
  function Pointers(args: seq<seq<byte>>, base: nat): (ptrs: seq<nat>)
    requires Room(args) <= PGSIZE
    ensures |ptrs| == |args|
  {
    seq(|args|, k requires 0 <= k < |args| => PointerTo(args, base, k))
  }

  function PointerTo(args: seq<seq<byte>>, base: nat, k: nat): (p: nat)
    requires k < |args| && Room(args) <= PGSIZE
    ensures p == base + Offset(args, k)
  {
    RoomGrows(args, k + 1);
    base + Offset(args, k)
  }

  lemma PointersNext(args: seq<seq<byte>>, n: nat, base: nat)
    requires n < |args| && Room(args[..n]) <= Room(args[..n + 1]) <= PGSIZE
    ensures Pointers(args[..n + 1], base) == Pointers(args[..n], base) + [base + Offset(args, n)]
  {
    forall k | 0 <= k <= n ensures Pointers(args[..n + 1], base)[k] == base + Offset(args, k) {
      assert args[..n + 1][..k + 1] == args[..k + 1];
    }
    forall k | 0 <= k < n ensures Pointers(args[..n], base)[k] == base + Offset(args, k) {
      assert args[..n][..k + 1] == args[..k + 1];
    }
  }

  /** The finished stack page. */
  function StackPage(args: seq<seq<byte>>, base: nat): (page: seq<byte>)
    requires Fits(args)
    ensures |page| == PGSIZE
  {
    Splice(Strings(args), PGSIZE - Total(args), Words(Pointers(args, base) + [0]))
  }

  // ---- What the program finds -----------------------------------------------------------------

  lemma OffsetRange(args: seq<seq<byte>>, k: nat)
    requires k < |args| && Room(args) <= PGSIZE
    ensures 0 <= PGSIZE - Room(args) <= Offset(args, k) && Offset(args, k) + |args[k]| < PGSIZE - Room(args[..k])
  {
    RoomNext(args, k);
    RoomGrows(args, k + 1);
  }

  /** String k stays where it was put: the later ones lie below it. */
  lemma {:induction false} StringStays(args: seq<seq<byte>>, k: nat, i: nat, j: nat)
    requires k < j <= |args| && Room(args) <= PGSIZE && i <= |args[k]|
    ensures 0 <= Offset(args, k) && Offset(args, k) + |args[k]| < PGSIZE && Room(args[..j]) <= PGSIZE
    ensures Strings(args[..j])[Offset(args, k) + i] == (args[k] + [0])[i]
  {
    var o := Offset(args, k) + i;
    OffsetRange(args, k);
    RoomGrows(args, j);
    StringsRead(args, j - 1, o);
    if k < j - 1 {
      StringStays(args, k, i, j - 1);
      Below(args, k, j - 1);
      assert Strings(args[..j])[o] == Strings(args[..j - 1])[o];
    }
  }

  /** The last string of a page, and the rest of it. */
  lemma StringsRead(args: seq<seq<byte>>, j: nat, o: nat)
    requires j < |args| && Room(args[..j + 1]) <= PGSIZE && o < PGSIZE
    ensures Room(args[..j]) <= PGSIZE && Offset(args, j) + |args[j]| < PGSIZE
    ensures Strings(args[..j + 1])[o]
         == if Offset(args, j) <= o <= Offset(args, j) + |args[j]| then (args[j] + [0])[o - Offset(args, j)]
           else Strings(args[..j])[o]
  {
    StringsNext(args, j);
    SpliceAt(Strings(args[..j]), PGSIZE - Room(args[..j + 1]), args[j] + [0], o);
  }

  /** A later string ends below an earlier one. */
  lemma Below(args: seq<seq<byte>>, k: nat, j: nat)
    requires k < j < |args| && Room(args) <= PGSIZE
    ensures Offset(args, j) + |args[j]| < Offset(args, k)
  {
    OffsetRange(args, j);
    RoomGrows(args[..j], k + 1);
    assert args[..j][..k + 1] == args[..k + 1];
  }

  lemma EightBytes()
    ensures Power(8) == 0x1_0000_0000_0000_0000
  {
    assert Power(4) == 0x1_0000_0000;
    assert Power(6) == 0x1_0000_0000_0000;
  }

  /** Entry k of the array: the address of string k, and a null pointer after the last. */
  lemma ArrayRead(args: seq<seq<byte>>, base: nat, k: nat)
    requires Fits(args) && base + PGSIZE <= 0x1_0000_0000_0000_0000 && k <= |args|
    ensures var at := PGSIZE - Total(args) + 8 * k;
            && 0 <= at && at + 8 <= PGSIZE
            && FromBytes(StackPage(args, base)[at..at + 8]) == if k < |args| then base + Offset(args, k) else 0
  {
    var xs := Pointers(args, base) + [0];
    WordAt(xs, k);
    SpliceSlice(Strings(args), PGSIZE - Total(args), Words(xs), 8 * k, 8 * k + 8);
    if k < |args| {
      OffsetRange(args, k);
    }
    EightBytes();
    IntegerRoundTrip(xs[k], 8);
  }

  lemma StringInPage(args: seq<seq<byte>>, base: nat, k: nat, i: nat)
    requires Fits(args) && k < |args| && i <= |args[k]|
    ensures 0 <= Offset(args, k) && Offset(args, k) + i < PGSIZE
    ensures StackPage(args, base)[Offset(args, k) + i] == (args[k] + [0])[i]
  {
    OffsetRange(args, k);
    StringStays(args, k, i, |args|);
    assert args[..|args|] == args;
    SpliceAt(Strings(args), PGSIZE - Total(args), Words(Pointers(args, base) + [0]), Offset(args, k) + i);
  }

  lemma SliceIs(page: seq<byte>, o: nat, a: seq<byte>)
    requires o + |a| <= |page| && forall i :: 0 <= i < |a| ==> page[o + i] == a[i]
    ensures page[o..][..|a|] == a
  {
  }

  /** The C string that entry k of the array points to is argument k. */
  lemma ArgumentRead(args: seq<seq<byte>>, base: nat, k: nat)
    requires Fits(args) && k < |args| && NoNul(args[k])
    ensures 0 <= Offset(args, k) <= PGSIZE && CString(StackPage(args, base)[Offset(args, k)..]) == args[k]
  {
    var o, page := Offset(args, k), StackPage(args, base);
    OffsetRange(args, k);
    forall i | 0 <= i < |args[k]| ensures page[o + i] == args[k][i] {
      StringInPage(args, base, k, i);
    }
    StringInPage(args, base, k, |args[k]|);
    SliceIs(page, o, args[k]);
    CStringOf(page[o..], args[k]);
  }
}
