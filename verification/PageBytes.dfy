/** A page of physical memory, ENTRIES 64-bit words, seen as PGSIZE bytes. */
module PageBytes {
  import opened ByteString
  import opened PageTable

  /** The word x with byte k replaced. */
  function PutByte(x: nat, k: nat, b: byte): nat {
    if k == 0 then x - x % 256 + b else x % 256 + 256 * PutByte(x / 256, k - 1, b)
  }

  lemma LowAndRest(lo: byte, y: nat)
    ensures (lo + 256 * y) % 256 == lo && (lo + 256 * y) / 256 == y
  {
  }

  lemma {:induction false} PutByteBytes(x: nat, k: nat, b: byte, n: nat)
    requires k < n
    ensures ToBytes(PutByte(x, k, b), n) == ToBytes(x, n)[k := b]
  {
    if k == 0 {
      assert PutByte(x, k, b) == b + 256 * (x / 256);
      LowAndRest(b, x / 256);
    } else {
      LowAndRest(x % 256, PutByte(x / 256, k - 1, b));
      PutByteBytes(x / 256, k - 1, b, n - 1);
    }
  }

  lemma {:induction false} PutByteWords(xs: seq<nat>, i: nat, k: nat, b: byte)
    requires i < |xs| && k < 8
    ensures Words(xs[i := PutByte(xs[i], k, b)]) == Words(xs)[8 * i + k := b]
  {
    var n, xs' := |xs| - 1, xs[i := PutByte(xs[i], k, b)];
    if i < n {
      PutByteWords(xs[..n], i, k, b);
      assert xs'[..n] == xs[..n][i := PutByte(xs[i], k, b)];
    } else {
      PutByteBytes(xs[i], k, b, 8);
      assert xs'[..n] == xs[..n];
    }
  }

  function PutPageByte(page: seq<nat>, o: nat, b: byte): (r: seq<nat>)
    requires |page| == ENTRIES && o < PGSIZE
    ensures |r| == ENTRIES
  {
    page[o / 8 := PutByte(page[o / 8], o % 8, b)]
  }

  lemma PutPageByteWords(page: seq<nat>, o: nat, b: byte)
    requires |page| == ENTRIES && o < PGSIZE
    ensures Words(PutPageByte(page, o, b)) == Splice(Words(page), o, [b])
  {
    PutByteWords(page, o / 8, o % 8, b);
    SpliceOne(Words(page), o, b);
  }

  /** memmove of d into a page. */
  function PutBytes(page: seq<nat>, at: nat, d: seq<byte>): (r: seq<nat>)
    requires |page| == ENTRIES && at + |d| <= PGSIZE
    ensures |r| == ENTRIES
    decreases |d|
  {
    if d == [] then page
    else
      var n := |d| - 1;
      PutPageByte(PutBytes(page, at, d[..n]), at + n, d[n])
  }

  lemma {:induction false} PutBytesWords(page: seq<nat>, at: nat, d: seq<byte>)
    requires |page| == ENTRIES && at + |d| <= PGSIZE
    ensures Words(PutBytes(page, at, d)) == Splice(Words(page), at, d)
    decreases |d|
  {
    if d == [] {
      SpliceNone(Words(page), at);
    } else {
      var n := |d| - 1;
      PutBytesWords(page, at, d[..n]);
      PutPageByteWords(PutBytes(page, at, d[..n]), at + n, d[n]);
      SpliceLast(Words(page), at, d, n);
    }
  }

  lemma {:induction false} ZeroWords(xs: seq<nat>)
    requires forall i :: 0 <= i < |xs| ==> xs[i] == 0
    ensures Words(xs) == ZeroBytes(8 * |xs|)
  {
    if xs != [] {
      ZeroWords(xs[..|xs| - 1]);
      ZeroWord(8);
    }
  }

  lemma {:induction false} ZeroWord(n: nat)
    ensures ToBytes(0, n) == ZeroBytes(n)
  {
    if n > 0 {
      ZeroWord(n - 1);
    }
  }

  // ---- Several pages --------------------------------------------------------------------------

  ghost predicate WholePages(pages: seq<seq<nat>>) {
    forall i :: 0 <= i < |pages| ==> |pages[i]| == ENTRIES
  }

  /** The bytes of pages one after the other. */
  function Flat(pages: seq<seq<nat>>): (s: seq<byte>) {
    if pages == [] then [] else Flat(pages[..|pages| - 1]) + Words(pages[|pages| - 1])
  }

  lemma {:induction false} FlatSize(pages: seq<seq<nat>>)
    requires WholePages(pages)
    ensures |Flat(pages)| == PGSIZE * |pages|
  {
    if pages != [] {
      FlatSize(pages[..|pages| - 1]);
    }
  }

  lemma FlatLast(pages: seq<seq<nat>>, page: seq<nat>)
    ensures Flat(pages + [page]) == Flat(pages) + Words(page)
  {
    assert (pages + [page])[..|pages|] == pages;
  }

  lemma {:induction false} FlatJoin(a: seq<seq<nat>>, b: seq<seq<nat>>)
    ensures Flat(a + b) == Flat(a) + Flat(b)
  {
    if b == [] {
      assert a + b == a;
    } else {
      var n := |b| - 1;
      FlatJoin(a, b[..n]);
      FlatLast(a + b[..n], b[n]);
      assert a + b == a + b[..n] + [b[n]];
      JoinThree(Flat(a), Flat(b[..n]), Words(b[n]));
    }
  }

  lemma JoinThree(a: seq<byte>, b: seq<byte>, c: seq<byte>)
    ensures a + (b + c) == a + b + c
  {
  }

  /** memmove into one of the pages. */
  lemma FlatPut(pages: seq<seq<nat>>, v: nat, o: nat, d: seq<byte>)
    requires WholePages(pages) && v < |pages| && o + |d| <= PGSIZE
    ensures |Flat(pages)| == PGSIZE * |pages|
    ensures Flat(pages[..v] + [PutBytes(pages[v], o, d)] + pages[v + 1..]) == Splice(Flat(pages), PGSIZE * v + o, d)
  {
    var a, page, b := pages[..v], pages[v], pages[v + 1..];
    assert pages == a + [page] + b;
    FlatSize(a);
    FlatSize(pages);
    FlatPutAround(a, page, b, o, d);
  }

  lemma FlatPutAround(a: seq<seq<nat>>, page: seq<nat>, b: seq<seq<nat>>, o: nat, d: seq<byte>)
    requires |page| == ENTRIES && o + |d| <= PGSIZE
    ensures |Flat(a)| + PGSIZE <= |Flat(a + [page] + b)|
    ensures Flat(a + [PutBytes(page, o, d)] + b) == Splice(Flat(a + [page] + b), |Flat(a)| + o, d)
  {
    FlatAround(a, page, b);
    FlatAround(a, PutBytes(page, o, d), b);
    PutBytesWords(page, o, d);
    SpliceMiddle(Flat(a), Words(page), Flat(b), o, d);
  }

  lemma FlatAround(a: seq<seq<nat>>, page: seq<nat>, b: seq<seq<nat>>)
    ensures Flat(a + [page] + b) == Flat(a) + Words(page) + Flat(b)
  {
    FlatJoin(a + [page], b);
    FlatLast(a, page);
  }

  lemma SpliceMiddle(a: seq<byte>, c: seq<byte>, b: seq<byte>, at: nat, d: seq<byte>)
    requires at + |d| <= |c|
    ensures Splice(a + c + b, |a| + at, d) == a + Splice(c, at, d) + b
  {
    SpliceTail(a, c, at, d);
    SpliceHead(a + c, b, |a| + at, d);
  }

  lemma {:induction false} FlatZeros(pages: seq<seq<nat>>)
    requires forall i :: 0 <= i < |pages| ==> ZeroPage(pages[i])
    ensures Flat(pages) == ZeroBytes(PGSIZE * |pages|)
  {
    if pages != [] {
      var n := |pages| - 1;
      FlatZeros(pages[..n]);
      ZeroWords(pages[n]);
      ZeroJoin(PGSIZE * n, PGSIZE);
    }
  }
}
