/** Byte sequences: overwriting a part of one, and integers as little-endian bytes. */
module ByteString {
  type byte = x: nat | x < 256

  /** memmove: c with the bytes from `at` on replaced by d. */
  function Splice(c: seq<byte>, at: nat, d: seq<byte>): (r: seq<byte>)
    requires at + |d| <= |c|
    ensures |r| == |c|
  {
    c[..at] + d + c[at + |d|..]
  }

  lemma SpliceAt(c: seq<byte>, at: nat, d: seq<byte>, x: nat)
    requires at + |d| <= |c| && x < |c|
    ensures Splice(c, at, d)[x] == if at <= x < at + |d| then d[x - at] else c[x]
  {
  }

  lemma SpliceSlice(c: seq<byte>, at: nat, d: seq<byte>, i: nat, j: nat)
    requires at + |d| <= |c| && i <= j <= |d|
    ensures Splice(c, at, d)[at + i..at + j] == d[i..j]
  {
  }

  /** Overwriting the first of two parts. */
  lemma SpliceHead(c: seq<byte>, b: seq<byte>, at: nat, d: seq<byte>)
    requires at + |d| <= |c|
    ensures Splice(c + b, at, d) == Splice(c, at, d) + b
  {
  }

  lemma SpliceOne(c: seq<byte>, at: nat, b: byte)
    requires at < |c|
    ensures Splice(c, at, [b]) == c[at := b]
  {
  }

  lemma SpliceNone(c: seq<byte>, at: nat)
    requires at <= |c|
    ensures Splice(c, at, []) == c
  {
  }

  lemma SpliceMore(c: seq<byte>, at: nat, d: seq<byte>, e: seq<byte>)
    requires at + |d| + |e| <= |c|
    ensures Splice(Splice(c, at, d), at + |d|, e) == Splice(c, at, d + e)
  {
  }

  lemma SpliceLast(c: seq<byte>, at: nat, d: seq<byte>, n: nat)
    requires at + |d| <= |c| && n + 1 == |d|
    ensures Splice(Splice(c, at, d[..n]), at + n, [d[n]]) == Splice(c, at, d)
  {
    SpliceMore(c, at, d[..n], [d[n]]);
    assert d == d[..n] + [d[n]];
  }

  /** Overwriting the second of two parts. */
  lemma SpliceTail(a: seq<byte>, c: seq<byte>, at: nat, d: seq<byte>)
    requires at + |d| <= |c|
    ensures Splice(a + c, |a| + at, d) == a + Splice(c, at, d)
  {
  }

  function ZeroBytes(n: nat): (z: seq<byte>)
    ensures |z| == n
  {
    seq(n, i => 0)
  }

  lemma ZeroJoin(a: nat, b: nat)
    ensures ZeroBytes(a) + ZeroBytes(b) == ZeroBytes(a + b)
  {
  }

  // ---- Integers -------------------------------------------------------------------------------

  /** The n low bytes of x, the lowest first. */
  function ToBytes(x: nat, n: nat): (s: seq<byte>)
    ensures |s| == n
  {
    if n == 0 then [] else [x % 256] + ToBytes(x / 256, n - 1)
  }

  function FromBytes(s: seq<byte>): (x: nat) {
    if s == [] then 0
    else
      var low: nat := s[0];
      low + 256 * FromBytes(s[1..])
  }

  function Power(n: nat): (p: nat)
    ensures p > 0
  {
    if n == 0 then 1 else 256 * Power(n - 1)
  }

  lemma {:induction false} IntegerRoundTrip(x: nat, n: nat)
    requires x < Power(n)
    ensures FromBytes(ToBytes(x, n)) == x
  {
    if n > 0 {
      assert x / 256 < Power(n - 1);
      IntegerRoundTrip(x / 256, n - 1);
      assert ToBytes(x, n)[1..] == ToBytes(x / 256, n - 1);
    }
  }

  /** An array of 64-bit words. */
  function Words(xs: seq<nat>): (s: seq<byte>)
    ensures |s| == 8 * |xs|
  {
    if xs == [] then [] else Words(xs[..|xs| - 1]) + ToBytes(xs[|xs| - 1], 8)
  }

  lemma {:induction false} WordAt(xs: seq<nat>, k: nat)
    requires k < |xs|
    ensures Words(xs)[8 * k..8 * k + 8] == ToBytes(xs[k], 8)
  {
    var n := |xs| - 1;
    if k < n {
      WordAt(xs[..n], k);
      assert Words(xs)[8 * k..8 * k + 8] == Words(xs[..n])[8 * k..8 * k + 8];
    }
  }

  // ---- C strings ------------------------------------------------------------------------------

  ghost predicate NoNul(s: seq<byte>) {
    forall i :: 0 <= i < |s| ==> s[i] != 0
  }

  /** The C string at the start of s. */
  function CString(s: seq<byte>): (c: seq<byte>)
    ensures |c| <= |s|
  {
    if s == [] || s[0] == 0 then [] else [s[0]] + CString(s[1..])
  }

  lemma {:induction false} CStringOf(s: seq<byte>, c: seq<byte>)
    requires |c| < |s| && s[..|c|] == c && s[|c|] == 0 && NoNul(c)
    ensures CString(s) == c
  {
    if c != [] {
      assert s[0] == c[0] && s[1..][..|c| - 1] == c[1..];
      CStringOf(s[1..], c[1..]);
    }
  }

  /** A string and its NUL at the start of a buffer. */
  lemma CStringPut(c: seq<byte>, str: seq<byte>)
    requires |str| < |c| && NoNul(str)
    ensures CString(Splice(c, 0, str + [0])) == str
  {
    var rest := c[|str| + 1..];
    assert Splice(c, 0, str + [0]) == str + ([0] + rest);
    CStringOf(str + ([0] + rest), str);
  }
}
