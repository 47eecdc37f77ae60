/** The Kernighan and Ritchie allocator (user/umalloc.c).  Addresses count header-sized units; `ptr` and
`size` are the two header fields in memory. */
module Umalloc {
  import opened HeapSpec

  /** The test of free's loop: bp belongs between p and its successor. */
  predicate Between(bp: nat, p: nat, next: nat) {
    (bp > p && bp < next) || (p >= next && (bp > p || bp < next))
  }

  ghost predicate SizesOk(size: Links, ts: seq<Tile>) {
    forall i :: 0 <= i < |ts| ==> ts[i].start in size && size[ts[i].start] == ts[i].size
  }

  /** The whole state: the tiling of lo .. brk, its sizes in memory, and the ring through base. */
  ghost predicate HeapOk(base: nat, ptr: Links, size: Links, freep: nat, ts: seq<Tile>, lo: nat, brk: nat) {
    && 0 < base < lo && Tiling(ts, lo, brk) && Apart(ts) && SizesOk(size, ts)
    && Path(ptr, [base] + Frees(ts), base) && freep in [base] + Frees(ts) && base in size && size[base] == 0
  }

  lemma {:induction false} ListOrder(base: nat, ts: seq<Tile>, lo: nat, brk: nat)
    requires base < lo && Tiling(ts, lo, brk)
    ensures Ascending([base] + Frees(ts))
  {
    FreesOrder(ts, lo, brk);
  }

  ghost predicate AllBelow(s: seq<nat>, x: nat) {
    forall y :: y in s ==> y < x
  }

  ghost predicate AllAbove(s: seq<nat>, x: nat) {
    forall y :: y in s ==> x < y
  }

  /** free's search stops at exactly one place of the ring: the last free block before bp. */
  lemma {:induction false} StopsAt(a: seq<nat>, b: seq<nat>, bp: nat, j: nat)
    requires a != [] && Ascending(a + b) && j < |a + b|
    requires AllBelow(a, bp) && AllAbove(b, bp)
    ensures var l := a + b; Between(bp, l[j], if j + 1 < |l| then l[j + 1] else l[0]) <==> j == |a| - 1
  {
    var l := a + b;
    assert j < |a| ==> l[j] in a;
    assert j >= |a| ==> l[j] in b;
    assert j + 1 < |a| ==> l[j + 1] in a;
    assert |a| <= j + 1 < |l| ==> l[j + 1] in b;
    assert l[0] == a[0] && a[0] in a;
    assert j > 0 ==> l[0] < l[j];
  }

  /** Where block k sits in the list of free blocks. */
  lemma {:induction false} Around(base: nat, ts: seq<Tile>, lo: nat, brk: nat, k: nat)
    requires base < lo && Tiling(ts, lo, brk) && k < |ts| && ts[k].live
    ensures [base] + Frees(ts) == [base] + Frees(ts[..k]) + Frees(ts[k + 1..]) && Ascending([base] + Frees(ts))
    ensures AllBelow([base] + Frees(ts[..k]), ts[k].start) && AllAbove(Frees(ts[k + 1..]), ts[k].start)
  {
    FreesSplit(ts, k);
    ListOrder(base, ts, lo, brk);
    BothSides(base, ts, lo, brk, k);
  }

  lemma {:induction false} BothSides(base: nat, ts: seq<Tile>, lo: nat, brk: nat, k: nat)
    requires base < lo && Tiling(ts, lo, brk) && k < |ts|
    ensures AllBelow([base] + Frees(ts[..k]), ts[k].start) && AllAbove(Frees(ts[k + 1..]), ts[k].start)
  {
    var mid := TilingCut(ts, k, lo, brk);
    FreesOrder(ts[..k], lo, mid);
    TilingStep(ts, k, mid, brk);
    FreesOrder(ts[k + 1..], mid + ts[k].size, brk);
  }

  /** The ring read from its f-th element on. */
  ghost function Turned(l: seq<nat>, f: nat): seq<nat>
    requires f < |l|
  {
    l[f..] + l[..f]
  }

  lemma {:induction false} TurnedPath(ptr: Links, l: seq<nat>, f: nat)
    requires f < |l| && Path(ptr, l, l[0])
    ensures Path(ptr, Turned(l, f), l[f])
  {
    if f == 0 {
      assert Turned(l, 0) == l;
    } else {
      assert l == l[..f] + l[f..];
      Rotate(ptr, l[..f], l[f..]);
    }
  }

  /** In the turned ring the search stops at position t and nowhere else. */
  lemma {:induction false} AtStop(ptr: Links, a: seq<nat>, b: seq<nat>, bp: nat, f: nat, t: nat, v: nat)
    requires a != [] && Ascending(a + b) && f < |a + b| && Path(ptr, a + b, a[0]) && v < |a + b|
    requires AllBelow(a, bp) && AllAbove(b, bp)
    requires t == if f <= |a| - 1 then |a| - 1 - f else |a + b| - f + |a| - 1
    ensures var r := Turned(a + b, f); r[v] in ptr && (Between(bp, r[v], ptr[r[v]]) <==> v == t) && r[t] == a[|a| - 1]
  {
    var l := a + b;
    var j := if f + v < |l| then f + v else f + v - |l|;
    StopsAt(a, b, bp, j);
    assert Hop(ptr, l, l[0], j);
    assert Turned(l, f)[v] == l[j];
  }

  /** The two tests of free find out exactly whether the neighbours are free. */
  lemma {:induction false} Neighbours(base: nat, ptr: Links, size: Links, freep: nat, ts: seq<Tile>, lo: nat, brk: nat,
                                      k: nat, p: nat)
    requires HeapOk(base, ptr, size, freep, ts, lo, brk) && k < |ts| && ts[k].live
    requires var a := [base] + Frees(ts[..k]); p == a[|a| - 1]
    ensures p in ptr && ptr[p] == Next(Frees(ts[k + 1..]), base) && p in size && p != ts[k].start
    ensures ts[k].start + ts[k].size == ptr[p] <==> FreeAfter(ts, k)
    ensures p + size[p] == ts[k].start <==> FreeBefore(ts, k)
    ensures FreeAfter(ts, k) ==> ptr[p] == ts[k + 1].start && ptr[p] != p && ptr[p] in ptr
    ensures FreeBefore(ts, k) ==> p == ts[k - 1].start
    ensures p > 0 && base != ts[k].start && (FreeAfter(ts, k) ==> ptr[p] in size && size[ptr[p]] == ts[k + 1].size)
  {
    var a, b := [base] + Frees(ts[..k]), Frees(ts[k + 1..]);
    Around(base, ts, lo, brk, k);
    PathCut(ptr, a, b, base);
    assert Hop(ptr, a, Next(b, base), |a| - 1);
    assert p in a && p == ([base] + Frees(ts))[|a| - 1] && base == ([base] + Frees(ts))[0];
    TilingOrder(ts, lo, brk);
    AfterTest(base, ts, lo, brk, k);
    BeforeTest(base, size, ts, lo, brk, k, p);
    if b != [] {
      assert Hop(ptr, b, base, 0) && b[0] in b;
    }
  }

  lemma {:induction false} AfterTest(base: nat, ts: seq<Tile>, lo: nat, brk: nat, k: nat)
    requires base < lo && Tiling(ts, lo, brk) && k < |ts|
    ensures ts[k].start + ts[k].size == Next(Frees(ts[k + 1..]), base) <==> FreeAfter(ts, k)
    ensures FreeAfter(ts, k) ==> Next(Frees(ts[k + 1..]), base) == ts[k + 1].start
  {
    var mid := TilingCut(ts, k, lo, brk);
    TilingStep(ts, k, mid, brk);
    if k + 1 < |ts| {
      TilingStep(ts, k + 1, mid + ts[k].size, brk);
      FreesAfter(ts, k);
      FreesOrder(ts[k + 2..], mid + ts[k].size + ts[k + 1].size, brk);
      assert ts[k + 1..][1..] == ts[k + 2..];
    }
  }

  lemma {:induction false} BeforeTest(base: nat, size: Links, ts: seq<Tile>, lo: nat, brk: nat, k: nat, p: nat)
    requires base < lo && Tiling(ts, lo, brk) && k < |ts| && SizesOk(size, ts) && base in size && size[base] == 0
    requires var a := [base] + Frees(ts[..k]); p == a[|a| - 1]
    ensures p in size && (p + size[p] == ts[k].start <==> FreeBefore(ts, k))
    ensures FreeBefore(ts, k) ==> p == ts[k - 1].start
  {
    TilingOrder(ts, lo, brk);
    FreesBefore(ts, k);
    if FreeBefore(ts, k) {
      var mid := TilingCut(ts, k - 1, lo, brk);
      TilingStep(ts, k - 1, mid, brk);
      TilingStep(ts, k, mid + ts[k - 1].size, brk);
    } else if Frees(ts[..k]) != [] {
      var j := FreeTile(ts[..k], p);
      assert ts[j] == ts[..k][j] && j != k - 1;
      StartsDiffer(ts, lo, brk, j, k - 1);
      StartsDiffer(ts, lo, brk, k - 1, k);
    }
  }

  /** A free block is one of the tiles. */
  lemma {:induction false} FreeTile(ts: seq<Tile>, p: nat) returns (j: nat)
    requires p in Frees(ts)
    ensures j < |ts| && !ts[j].live && ts[j].start == p
  {
    if !ts[0].live && ts[0].start == p {
      j := 0;
    } else {
      var i := FreeTile(ts[1..], p);
      j := i + 1;
    }
  }

  /** The sizes after free, for a block bp after p and before next. */
  ghost function Resized(size: Links, bp: nat, p: nat, next: nat, before: bool, after: bool): Links
    requires bp in size && p in size && (after ==> next in size)
  {
    var own := size[bp] + if after then size[next] else 0;
    var s := if after then size[bp := own] else size;
    if before then s[p := size[p] + own] else s
  }

  /** The heap after free. */
  lemma {:induction false} FreedHeap(base: nat, ptr: Links, size: Links, freep: nat, ts: seq<Tile>, lo: nat, brk: nat,
                                     k: nat, p: nat)
    requires HeapOk(base, ptr, size, freep, ts, lo, brk) && k < |ts| && ts[k].live
    requires var a := [base] + Frees(ts[..k]); p == a[|a| - 1]
    requires p in ptr && p in size && p != ts[k].start && base != ts[k].start && ts[k].start in size
    requires FreeAfter(ts, k) ==> ptr[p] in ptr && ptr[p] == ts[k + 1].start && ptr[p] in size
    requires FreeBefore(ts, k) ==> p == ts[k - 1].start
    ensures var t := ts[k].start; var before, after := FreeBefore(ts, k), FreeAfter(ts, k);
            HeapOk(base, Spliced(ptr, t, p, before, after), Resized(size, t, p, ptr[p], before, after), p, Freed(ts, k),
                   lo, brk)
    ensures Lives(Freed(ts, k)) == Lives(ts) - {ts[k]}
  {
    FreedTiling(ts, k, lo, brk);
    FreedRing(base, ptr, ts, lo, brk, k, p);
    TilingOrder(ts, lo, brk);
    FreedSizes(size, Resized(size, ts[k].start, p, ptr[p], FreeBefore(ts, k), FreeAfter(ts, k)), ts, lo, brk, k);
  }

  lemma {:induction false} FreedSizes(size: Links, size': Links, ts: seq<Tile>, lo: nat, brk: nat, k: nat)
    requires Tiling(ts, lo, brk) && k < |ts| && SizesOk(size, ts)
    requires var t := Merged(ts, k); t.start in size' && size'[t.start] == t.size
    requires forall x :: x in size && x != Merged(ts, k).start && x != ts[k].start ==> x in size' && size'[x] == size[x]
    ensures SizesOk(size', Freed(ts, k))
  {
    var t, ts' := Merged(ts, k), Freed(ts, k);
    var m := if FreeBefore(ts, k) then k - 1 else k;
    forall i | 0 <= i < |ts'| ensures ts'[i].start in size' && size'[ts'[i].start] == ts'[i].size {
      if i != |Before(ts, k)| {
        var i' := if i < |Before(ts, k)| then i else i - |ts'| + |ts|;
        assert ts'[i] == ts[i'];
        Apart2(ts, lo, brk, i', m);
        Apart2(ts, lo, brk, i', k);
      }
    }
  }

  lemma {:induction false} Apart2(ts: seq<Tile>, lo: nat, brk: nat, i: nat, j: nat)
    requires Tiling(ts, lo, brk) && i < |ts| && j < |ts| && i != j
    ensures ts[i].start != ts[j].start
  {
    StartsDiffer(ts, lo, brk, if i < j then i else j, if i < j then j else i);
  }

  /** The links after free: the four ways of splicing. */
  ghost function Spliced(ptr: Links, bp: nat, p: nat, before: bool, after: bool): Links
    requires p in ptr && (after ==> ptr[p] in ptr)
  {
    var next := if after then ptr[ptr[p]] else ptr[p];
    ptr[bp := next][p := if before then next else bp]
  }

  lemma {:induction false} FreedRing(base: nat, ptr: Links, ts: seq<Tile>, lo: nat, brk: nat, k: nat, p: nat)
    requires base < lo && Tiling(ts, lo, brk) && k < |ts| && ts[k].live && Path(ptr, [base] + Frees(ts), base)
    requires var a := [base] + Frees(ts[..k]); p == a[|a| - 1]
    requires p in ptr && (FreeAfter(ts, k) ==> ptr[p] in ptr)
    ensures Path(Spliced(ptr, ts[k].start, p, FreeBefore(ts, k), FreeAfter(ts, k)), [base] + Frees(Freed(ts, k)), base)
    ensures p in [base] + Frees(Freed(ts, k))
  {
    Around(base, ts, lo, brk, k);
    FreedFrees(ts, k);
    FreesBefore(ts, k);
    FreesAfter(ts, k);
    var a, b := [base] + Frees(ts[..k]), Frees(After(ts, k));
    if FreeAfter(ts, k) {
      SpliceAfter(ptr, a, ts[k + 1].start, b, ts[k].start, FreeBefore(ts, k));
    } else {
      SpliceAlone(ptr, a, b, ts[k].start, FreeBefore(ts, k));
    }
    NewList(base, Frees(Before(ts, k)), Frees(ts[..k]), b, Merged(ts, k).start, p, FreeBefore(ts, k));
  }

  /** The free list after free, seen from the place p that the search found. */
  lemma {:induction false} NewList(base: nat, before: seq<nat>, all: seq<nat>, after: seq<nat>, x: nat, p: nat,
                                   merged: bool)
    requires if merged then all == before + [x] && p == x else all == before && p == ([base] + all)[|all|]
    ensures [base] + (before + [x] + after) == if merged then [base] + all + after else [base] + all + [x] + after
    ensures p in [base] + (before + [x] + after)
  {
    assert !merged ==> ([base] + (before + [x] + after))[|all|] == p;
    assert merged ==> ([base] + (before + [x] + after))[|before| + 1] == p;
  }

  lemma {:induction false} SpliceAlone(ptr: Links, a: seq<nat>, b: seq<nat>, bp: nat, before: bool)
    requires a != [] && Ascending(a + b) && bp !in a + b && Path(ptr, a + b, a[0]) && a[|a| - 1] in ptr
    ensures Path(Spliced(ptr, bp, a[|a| - 1], before, false), if before then a + b else a + [bp] + b, a[0])
  {
    PathCut(ptr, a, b, a[0]);
    assert Hop(ptr, a, Next(b, a[0]), |a| - 1);
    if before {
      PathFrame(ptr, Spliced(ptr, bp, a[|a| - 1], true, false), a + b, a[0]);
    } else {
      RingInsert(ptr, a, b, bp);
    }
  }

  lemma {:induction false} SpliceAfter(ptr: Links, a: seq<nat>, n: nat, b: seq<nat>, bp: nat, before: bool)
    requires a != [] && Ascending(a + ([n] + b)) && bp !in a + ([n] + b) && Path(ptr, a + ([n] + b), a[0])
    requires a[|a| - 1] in ptr && ptr[a[|a| - 1]] in ptr
    ensures Path(Spliced(ptr, bp, a[|a| - 1], before, true), if before then a + b else a + [bp] + b, a[0])
  {
    assert a + ([n] + b) == a + [n] + b;
    PathCut(ptr, a, [n] + b, a[0]);
    assert Hop(ptr, a, n, |a| - 1);
    RingDrop(ptr, a, n, b);
    if before {
      PathFrame(ptr[a[|a| - 1] := ptr[n]], Spliced(ptr, bp, a[|a| - 1], true, true), a + b, a[0]);
    } else {
      RingReplace(ptr, a, n, b, bp);
    }
  }

  /** A live block at the end, in the place of another, or after a free one, touches no free block. */
  lemma {:induction false} ApartJoin(ts: seq<Tile>, us: seq<Tile>)
    requires Apart(ts) && |us| == 1 && us[0].live
    ensures Apart(ts + us)
  {
    forall i | 0 <= i < |ts + us| - 1 ensures ApartAt(ts + us, i) {
      assert i + 1 < |ts| ==> ApartAt(ts, i);
    }
  }

  lemma {:induction false} ApartLive(ts: seq<Tile>, j: nat, t: Tile)
    requires Apart(ts) && j < |ts| && t.live
    ensures Apart(ts[j := t])
  {
    var ts' := ts[j := t];
    forall i | 0 <= i < |ts| - 1 ensures ApartAt(ts', i) {
      assert ApartAt(ts, i);
    }
  }

  lemma {:induction false} ApartSplit(ts: seq<Tile>, j: nat, u: Tile, t: Tile)
    requires Apart(ts) && j < |ts| && !ts[j].live && !u.live && t.live
    ensures Apart(ts[..j] + [u, t] + ts[j + 1..])
  {
    var ts' := ts[..j] + [u, t] + ts[j + 1..];
    forall i | 0 <= i < |ts'| - 1 ensures ApartAt(ts', i) {
      if i < j {
        assert ApartAt(ts, i) && ts'[i] == ts[i];
      } else if i > j + 1 {
        assert ApartAt(ts, i - 1) && ts'[i] == ts[i - 1] && ts'[i + 1] == ts[i];
      }
    }
  }

  /** Memory from sbrk is one more block at the end. */
  lemma {:induction false} Append(base: nat, ptr: Links, size: Links, freep: nat, ts: seq<Tile>, lo: nat, brk: nat,
                                  nu: nat)
    requires HeapOk(base, ptr, size, freep, ts, lo, brk) && nu > 0
    ensures HeapOk(base, ptr, size[brk := nu], freep, ts + [Tile(brk, nu, true)], lo, brk + nu)
  {
    var t := Tile(brk, nu, true);
    assert [t][1..] == [];
    TilingJoin(ts, [t], lo, brk, brk + nu);
    TilingOrder(ts, lo, brk);
    FreesJoin(ts, [t]);
    FreesOne(t);
    assert Frees(ts + [t]) == Frees(ts);
    ApartJoin(ts, [t]);
  }

  lemma {:induction false} AppendLives(ts: seq<Tile>, lo: nat, brk: nat, nu: nat)
    requires Tiling(ts, lo, brk) && nu > 0
    ensures Lives(ts + [Tile(brk, nu, true)]) - {Tile(brk, nu, true)} == Lives(ts)
  {
    var t := Tile(brk, nu, true);
    TilingOrder(ts, lo, brk);
    forall x | x in Lives(ts) ensures x in Lives(ts + [t]) - {t} {
      var i :| 0 <= i < |ts| && ts[i].live && ts[i] == x;
      assert (ts + [t])[i] == x;
    }
  }

  // ---- malloc -----------------------------------------------------------------------------------------

  /** morecore asks sbrk for 4096 units at least. */
  function AtLeast(nu: nat): nat {
    if nu < 4096 then 4096 else nu
  }

  /** The header and the bytes, rounded up to units. */
  function Units(nbytes: nat): nat {
    (nbytes + 15) / 16 + 1
  }

  /** rot is the ring read from the element after freep on, so that freep comes last. */
  ghost predicate AroundFrom(ptr: Links, freep: nat, base: nat, ts: seq<Tile>, rot: seq<nat>) {
    && rot != [] && Path(ptr, rot, rot[0]) && rot[|rot| - 1] == freep
    && (forall x :: x in rot <==> x in [base] + Frees(ts))
    && (forall i, j :: 0 <= i < j < |rot| ==> rot[i] != rot[j])
  }

  ghost predicate SmallBefore(size: Links, rot: seq<nat>, v: nat, n: nat)
    requires v <= |rot|
  {
    forall u :: 0 <= u < v ==> rot[u] in size && size[rot[u]] < n
  }

  ghost predicate HasBig(ts: seq<Tile>, n: nat) {
    exists j :: 0 <= j < |ts| && !ts[j].live && ts[j].size >= n
  }

  lemma {:induction false} FromFreep(base: nat, ptr: Links, size: Links, freep: nat, ts: seq<Tile>, lo: nat, brk: nat)
    returns (rot: seq<nat>)
    requires HeapOk(base, ptr, size, freep, ts, lo, brk)
    ensures AroundFrom(ptr, freep, base, ts, rot) && freep in ptr && ptr[freep] == rot[0]
  {
    var l := [base] + Frees(ts);
    ListOrder(base, ts, lo, brk);
    var f :| 0 <= f < |l| && l[f] == freep;
    var g := if f + 1 < |l| then f + 1 else 0;
    rot := Turned(l, g);
    TurnedPath(ptr, l, g);
    assert Hop(ptr, l, l[0], f);
    TurnedSame(l, g);
  }

  lemma {:induction false} TurnedSame(l: seq<nat>, g: nat)
    requires g < |l| && Ascending(l)
    ensures var r := Turned(l, g);
            && (forall x :: x in r <==> x in l) && r[|r| - 1] == l[if g == 0 then |l| - 1 else g - 1] && r[0] == l[g]
            && (forall i, j :: 0 <= i < j < |r| ==> r[i] != r[j])
  {
    var r := Turned(l, g);
    forall x ensures x in r <==> x in l {
      TurnedIn(l, g, x);
    }
    forall i, j | 0 <= i < j < |r| ensures r[i] != r[j] {
      TurnedApart(l, g, i, j);
    }
  }

  lemma {:induction false} TurnedIn(l: seq<nat>, g: nat, x: nat)
    requires g < |l|
    ensures x in Turned(l, g) <==> x in l
  {
    var r, d := Turned(l, g), |l| - g;
    if x in l {
      var i :| 0 <= i < |l| && l[i] == x;
      assert r[if i < g then i + d else i - g] == x;
    }
    if x in r {
      var i :| 0 <= i < |r| && r[i] == x;
      assert l[if i < d then i + g else i - d] == x;
    }
  }

  lemma {:induction false} TurnedApart(l: seq<nat>, g: nat, i: nat, j: nat)
    requires g < |l| && Ascending(l) && i < j < |l|
    ensures Turned(l, g)[i] != Turned(l, g)[j]
  {
    var d := |l| - g;
    var i', j' := if i < d then i + g else i - d, if j < d then j + g else j - d;
    assert Turned(l, g)[i] == l[i'] && Turned(l, g)[j] == l[j'];
    assert if i' < j' then l[i'] < l[j'] else l[j'] < l[i'];
  }

  /** The next element of the ring. */
  lemma {:induction false} InRing(base: nat, ptr: Links, size: Links, freep: nat, ts: seq<Tile>, lo: nat, brk: nat,
                                  rot: seq<nat>, v: nat)
    requires HeapOk(base, ptr, size, freep, ts, lo, brk) && AroundFrom(ptr, freep, base, ts, rot) && v < |rot|
    ensures rot[v] in size && rot[v] in ptr && rot[v] in [base] + Frees(ts)
    ensures rot[v] != freep ==> v + 1 < |rot| && ptr[rot[v]] == rot[v + 1]
    ensures var prevp := if v == 0 then freep else rot[v - 1];
            prevp in ptr && ptr[prevp] == rot[v] && prevp in [base] + Frees(ts)
  {
    assert Hop(ptr, rot, rot[0], v) && Hop(ptr, rot, rot[0], |rot| - 1) && (v > 0 ==> Hop(ptr, rot, rot[0], v - 1));
    assert rot[v] in rot && rot[|rot| - 1] in rot && (v > 0 ==> rot[v - 1] in rot);
    if rot[v] != base {
      var j := FreeTile(ts, rot[v]);
    }
  }

  /** Having come back to freep, the search has seen every free block. */
  lemma {:induction false} NoneBig(base: nat, ptr: Links, size: Links, freep: nat, ts: seq<Tile>, lo: nat, brk: nat,
                                   rot: seq<nat>, v: nat, n: nat)
    requires HeapOk(base, ptr, size, freep, ts, lo, brk) && AroundFrom(ptr, freep, base, ts, rot) && v < |rot|
             && rot[v] == freep
    requires SmallBefore(size, rot, v, n) && freep in size && size[freep] < n
    ensures forall i :: 0 <= i < |ts| && !ts[i].live ==> ts[i].size < n
  {
    forall i | 0 <= i < |ts| && !ts[i].live ensures ts[i].size < n {
      TileFree(ts, i);
      assert ts[i].start in rot;
      var u :| 0 <= u < |rot| && rot[u] == ts[i].start;
      assert u < v || rot[u] == freep;
    }
  }

  lemma {:induction false} NoBig(base: nat, ptr: Links, size: Links, freep: nat, ts: seq<Tile>, lo: nat, brk: nat,
                                 rot: seq<nat>, v: nat, n: nat)
    requires HeapOk(base, ptr, size, freep, ts, lo, brk) && AroundFrom(ptr, freep, base, ts, rot) && v < |rot|
             && rot[v] == freep
    requires SmallBefore(size, rot, v, n) && freep in size && size[freep] < n
    ensures !HasBig(ts, n)
  {
    NoneBig(base, ptr, size, freep, ts, lo, brk, rot, v, n);
  }

  lemma {:induction false} TileFree(ts: seq<Tile>, i: nat)
    requires i < |ts| && !ts[i].live
    ensures ts[i].start in Frees(ts)
  {
    if i > 0 {
      TileFree(ts[1..], i - 1);
    }
  }

  /** The predecessor in the ring is unique. */
  lemma {:induction false} Predecessor(ptr: Links, a: seq<nat>, p: nat, b: seq<nat>, prevp: nat)
    requires a != [] && Ascending(a + [p] + b) && Path(ptr, a + [p] + b, a[0]) && prevp in a + [p] + b && prevp in ptr
             && ptr[prevp] == p
    ensures prevp == a[|a| - 1]
  {
    var l := a + [p] + b;
    var i :| 0 <= i < |l| && l[i] == prevp;
    assert Hop(ptr, l, l[0], i) && l[|a|] == p && l[0] == a[0];
    assert i + 1 < |l| ==> l[i + 1] == l[|a|];
  }

  /** The block that malloc takes is a free tile, not the base. */
  lemma {:induction false} Chosen(base: nat, size: Links, ts: seq<Tile>, lo: nat, brk: nat, prevp: nat, p: nat)
    returns (j: nat)
    requires 0 < base < lo && Tiling(ts, lo, brk) && base in size && size[base] == 0 && SizesOk(size, ts)
    requires prevp in [base] + Frees(ts) && p in [base] + Frees(ts) && p in size && size[p] > 0
    ensures prevp > 0 && j < |ts| && !ts[j].live && ts[j].start == p && ts[j].size == size[p]
  {
    FreesOrder(ts, lo, brk);
    assert p in Frees(ts);
    j := FreeTile(ts, p);
  }

  /** An exact fit: the block leaves the ring. */
  lemma {:induction false} TakeAll(base: nat, ptr: Links, size: Links, freep: nat, ts: seq<Tile>, lo: nat, brk: nat,
                                   j: nat, prevp: nat)
    requires HeapOk(base, ptr, size, freep, ts, lo, brk) && j < |ts| && !ts[j].live
    requires prevp in [base] + Frees(ts) && prevp in ptr && ptr[prevp] == ts[j].start
    ensures var t := Tile(ts[j].start, ts[j].size, true); var ts' := ts[j := t];
            && ts[j].start in ptr
            && HeapOk(base, ptr[prevp := ptr[ts[j].start]], size, prevp, ts', lo, brk)
            && Lives(ts') == Lives(ts) + {t} && t !in Lives(ts) && prevp > 0
  {
    var t := Tile(ts[j].start, ts[j].size, true);
    TakeRing(base, ptr, ts, lo, brk, j, prevp, t);
    RetileOne(ts, lo, brk, j, t);
    ApartLive(ts, j, t);
    LivesOne(ts, lo, brk, j, t);
  }

  lemma {:induction false} TakeRing(base: nat, ptr: Links, ts: seq<Tile>, lo: nat, brk: nat, j: nat, prevp: nat,
                                    t: Tile)
    requires 0 < base < lo && Tiling(ts, lo, brk) && Path(ptr, [base] + Frees(ts), base) && j < |ts| && !ts[j].live
             && t.live
    requires prevp in [base] + Frees(ts) && prevp in ptr && ptr[prevp] == ts[j].start
    ensures prevp > 0 && ts[j].start in ptr && prevp in [base] + Frees(ts[j := t])
    ensures Path(ptr[prevp := ptr[ts[j].start]], [base] + Frees(ts[j := t]), base)
  {
    var a, b := [base] + Frees(ts[..j]), Frees(ts[j + 1..]);
    ListOrder(base, ts, lo, brk);
    FreesWithout(base, ts, j, t);
    DropNext(ptr, a, ts[j].start, b, prevp);
  }

  lemma {:induction false} FreesWithout(base: nat, ts: seq<Tile>, j: nat, t: Tile)
    requires j < |ts| && !ts[j].live && t.live
    ensures var a, b := [base] + Frees(ts[..j]), Frees(ts[j + 1..]);
            [base] + Frees(ts) == a + [ts[j].start] + b && [base] + Frees(ts[j := t]) == a + b
  {
    var ts' := ts[j := t];
    FreesSplit(ts, j);
    FreesSplit(ts', j);
    assert ts'[..j] == ts[..j] && ts'[j + 1..] == ts[j + 1..];
  }

  /** The element after prevp leaves the ring. */
  lemma {:induction false} DropNext(ptr: Links, a: seq<nat>, p: nat, b: seq<nat>, prevp: nat)
    requires a != [] && a[0] > 0 && Ascending(a + [p] + b) && Path(ptr, a + [p] + b, a[0])
    requires prevp in a + [p] + b && prevp in ptr && ptr[prevp] == p
    ensures prevp > 0 && p in ptr && prevp in a + b && Path(ptr[prevp := ptr[p]], a + b, a[0])
  {
    Predecessor(ptr, a, p, b, prevp);
    RingDrop(ptr, a, p, b);
    assert prevp == (a + b)[|a| - 1];
    assert (a + [p] + b)[0] <= (a + [p] + b)[|a| - 1];
  }

  lemma {:induction false} RetileOne(ts: seq<Tile>, lo: nat, brk: nat, j: nat, t: Tile)
    requires Tiling(ts, lo, brk) && j < |ts| && t.start == ts[j].start && t.size == ts[j].size
    ensures Tiling(ts[j := t], lo, brk)
  {
    if j == 0 {
      assert ts[0 := t][1..] == ts[1..];
    } else {
      RetileOne(ts[1..], lo + ts[0].size, brk, j - 1, t);
      assert ts[j := t][1..] == ts[1..][j - 1 := t];
    }
  }

  lemma {:induction false} LivesOne(ts: seq<Tile>, lo: nat, brk: nat, j: nat, t: Tile)
    requires Tiling(ts, lo, brk) && j < |ts| && !ts[j].live && t.live && t.start == ts[j].start
    ensures Lives(ts[j := t]) == Lives(ts) + {t} && t !in Lives(ts)
  {
    var ts' := ts[j := t];
    assert ts'[j] == t;
    forall x | x in Lives(ts) ensures x in Lives(ts') && x != t {
      var i :| 0 <= i < |ts| && ts[i].live && ts[i] == x;
      Apart2(ts, lo, brk, i, j);
      assert ts'[i] == x;
    }
  }

  /** The tail of a free block becomes a live block. */
  ghost function Split(ts: seq<Tile>, j: nat, n: nat): seq<Tile>
    requires j < |ts| && n < ts[j].size
  {
    ts[..j] + [Tile(ts[j].start, ts[j].size - n, false), Tile(ts[j].start + ts[j].size - n, n, true)] + ts[j + 1..]
  }

  lemma {:induction false} TakeSome(base: nat, ptr: Links, size: Links, freep: nat, ts: seq<Tile>, lo: nat, brk: nat,
                                    j: nat, n: nat)
    requires HeapOk(base, ptr, size, freep, ts, lo, brk) && j < |ts| && !ts[j].live && 0 < n < ts[j].size
    ensures var t := Tile(ts[j].start + ts[j].size - n, n, true);
            && HeapOk(base, ptr, size[ts[j].start := ts[j].size - n][t.start := n], freep, Split(ts, j, n), lo, brk)
            && Lives(Split(ts, j, n)) == Lives(ts) + {t} && t !in Lives(ts)
            && Frees(Split(ts, j, n)) == Frees(ts)
  {
    SplitTiling(ts, lo, brk, j, n);
    SplitFrees(ts, j, n);
    SplitSizes(size, ts, lo, brk, j, n);
    SplitLives(ts, lo, brk, j, n);
    TilingOrder(ts, lo, brk);
  }

  lemma {:induction false} SplitTiling(ts: seq<Tile>, lo: nat, brk: nat, j: nat, n: nat)
    requires Tiling(ts, lo, brk) && j < |ts| && 0 < n < ts[j].size && Apart(ts) && !ts[j].live
    ensures Tiling(Split(ts, j, n), lo, brk) && Apart(Split(ts, j, n))
  {
    var mid := TilingCut(ts, j, lo, brk);
    TilingStep(ts, j, mid, brk);
    var two := [Tile(ts[j].start, ts[j].size - n, false), Tile(ts[j].start + ts[j].size - n, n, true)];
    assert two[1..][1..] == [] && Tiling(two[1..][1..], mid + ts[j].size, mid + ts[j].size);
    assert Tiling(two[1..], mid + (ts[j].size - n), mid + ts[j].size);
    TilingJoin(ts[..j], two, lo, mid, mid + ts[j].size);
    TilingJoin(ts[..j] + two, ts[j + 1..], lo, mid + ts[j].size, brk);
    ApartSplit(ts, j, two[0], two[1]);
  }

  lemma {:induction false} SplitFrees(ts: seq<Tile>, j: nat, n: nat)
    requires j < |ts| && !ts[j].live && n < ts[j].size
    ensures Frees(Split(ts, j, n)) == Frees(ts)
  {
    var u, t := Tile(ts[j].start, ts[j].size - n, false), Tile(ts[j].start + ts[j].size - n, n, true);
    FreesSplit(ts, j);
    FreesAround(ts[..j], u, []);
    FreesAround(ts[..j] + [u] + [], t, ts[j + 1..]);
    assert Split(ts, j, n) == ts[..j] + [u] + [] + [t] + ts[j + 1..];
  }

  lemma {:induction false} SplitSizes(size: Links, ts: seq<Tile>, lo: nat, brk: nat, j: nat, n: nat)
    requires Tiling(ts, lo, brk) && j < |ts| && 0 < n < ts[j].size && SizesOk(size, ts)
    ensures SizesOk(size[ts[j].start := ts[j].size - n][ts[j].start + ts[j].size - n := n], Split(ts, j, n))
  {
    var ts', size' := Split(ts, j, n), size[ts[j].start := ts[j].size - n][ts[j].start + ts[j].size - n := n];
    forall i | 0 <= i < |ts'| ensures ts'[i].start in size' && size'[ts'[i].start] == ts'[i].size {
      if i < j {
        StartsDiffer(ts, lo, brk, i, j);
      } else if i > j + 1 {
        StartsDiffer(ts, lo, brk, j, i - 1);
        assert ts'[i] == ts[i - 1];
      }
    }
  }

  lemma {:induction false} SplitLives(ts: seq<Tile>, lo: nat, brk: nat, j: nat, n: nat)
    requires Tiling(ts, lo, brk) && j < |ts| && !ts[j].live && 0 < n < ts[j].size
    ensures var t := Tile(ts[j].start + ts[j].size - n, n, true);
            Lives(Split(ts, j, n)) == Lives(ts) + {t} && t !in Lives(ts)
  {
    var ts', t := Split(ts, j, n), Tile(ts[j].start + ts[j].size - n, n, true);
    assert ts'[j + 1] == t;
    forall x | x in Lives(ts) ensures x in Lives(ts') && x != t {
      var i :| 0 <= i < |ts| && ts[i].live && ts[i] == x;
      assert ts'[if i < j then i else i + 1] == x;
      StartsDiffer(ts, lo, brk, if i < j then i else j, if i < j then j else i);
    }
    forall x | x in Lives(ts') ensures x in Lives(ts) + {t} {
      var i :| 0 <= i < |ts'| && ts'[i].live && ts'[i] == x;
      assert i != j + 1 ==> ts[if i < j then i else i - 1] == x;
    }
  }

  class Heap {
    const base: nat
    var ptr: Links
    var size: Links
    var freep: nat
    ghost var ts: seq<Tile>
    ghost const lo: nat
    var brk: nat
    const limit: nat   // how far sbrk can go

    ghost predicate Valid()
      reads this
    {
      if freep == 0 then 0 < base < lo == brk && ts == [] else HeapOk(base, ptr, size, freep, ts, lo, brk)
    }

    /** No memory yet; sbrk will start above base. */
    constructor (base: nat, lo: nat, limit: nat)
      requires 0 < base < lo
      ensures Valid() && ts == [] && this.base == base && brk == lo && this.limit == limit
    {
      this.base, this.lo, this.limit := base, lo, limit;
      ptr, size, freep, ts, brk := map[], map[], 0, [], lo;
    }

    /** The loop of free: the last free block before bp. */
    method FindPlace(bp: nat, ghost k: nat) returns (p: nat)
      requires freep != 0 && Valid() && k < |ts| && ts[k].live && ts[k].start == bp
      ensures var a := [base] + Frees(ts[..k]); p == a[|a| - 1]
    {
      ghost var a, b := [base] + Frees(ts[..k]), Frees(ts[k + 1..]);
      Around(base, ts, lo, brk, k);
      ghost var f :| 0 <= f < |a + b| && (a + b)[f] == freep;
      ghost var r := Turned(a + b, f);
      TurnedPath(ptr, a + b, f);
      ghost var t := if f <= |a| - 1 then |a| - 1 - f else |a + b| - f + |a| - 1;
      p := freep;
      ghost var v := 0;
      while !Between(bp, p, ptr[p])
        invariant v <= t < |r| && p == r[v] && Hop(ptr, r, r[0], v)
        decreases t - v
      {
        assert v != t by {
          AtStop(ptr, a, b, bp, f, t, v);
        }
        assert Hop(ptr, r, r[0], v + 1);
        v := v + 1;
        p := ptr[p];
      }
      AtStop(ptr, a, b, bp, f, t, v);
    }

    /** free, for the block with header bp: it is free, and merged with its free neighbours. */
    method FreeBlock(bp: nat, ghost k: nat)
      requires freep != 0 && Valid() && k < |ts| && ts[k].live && ts[k].start == bp
      modifies this`ptr, this`size, this`freep, this`ts
      ensures freep != 0 && Valid() && ts == Freed(old(ts), k) && Lives(ts) == Lives(old(ts)) - {old(ts)[k]}
    {
      var p := FindPlace(bp, k);
      Neighbours(base, ptr, size, freep, ts, lo, brk, k, p);
      FreedHeap(base, ptr, size, freep, ts, lo, brk, k, p);
      Join(bp, p, FreeBefore(ts, k), FreeAfter(ts, k));
      ts := Freed(ts, k);
    }

    /** The second half of free: bp becomes part of the ring between p and its successor, merged with
        each of them that it touches. */
    method Join(bp: nat, p: nat, ghost before: bool, ghost after: bool)
      requires p in ptr && p in size && bp in size && p != bp
      requires bp + size[bp] == ptr[p] <==> after
      requires p + size[p] == bp <==> before
      requires after ==> ptr[p] in ptr && ptr[p] in size
      modifies this`ptr, this`size, this`freep
      ensures freep == p && ptr == Spliced(old(ptr), bp, p, before, after)
      ensures size == Resized(old(size), bp, p, old(ptr)[p], before, after)
    {
      if bp + size[bp] == ptr[p] {
        size := size[bp := size[bp] + size[ptr[p]]];
        ptr := ptr[bp := ptr[ptr[p]]];
      } else {
        ptr := ptr[bp := ptr[p]];
      }
      if p + size[p] == bp {
        size := size[p := size[p] + size[bp]];
        ptr := ptr[p := ptr[bp]];
      } else {
        ptr := ptr[p := bp];
      }
      freep := p;
    }

    /** free: ap is the address just after the header of a live block. */
    method Free(ap: nat, ghost k: nat)
      requires freep != 0 && Valid() && ap > 0 && k < |ts| && ts[k].live && ts[k].start == ap - 1
      modifies this`ptr, this`size, this`freep, this`ts
      ensures freep != 0 && Valid() && Lives(ts) == Lives(old(ts)) - {old(ts)[k]}
    {
      FreeBlock(ap - 1, k);
    }

    /** morecore: at least nu more units, entered through free; false when sbrk refuses. */
    method Morecore(nunits: nat) returns (ok: bool)
      requires freep != 0 && Valid() && nunits > 0
      modifies this`ptr, this`size, this`freep, this`ts, this`brk
      ensures freep != 0 && Valid() && Lives(ts) == Lives(old(ts))
      ensures !ok ==> brk + AtLeast(nunits) > limit && ts == old(ts) && brk == old(brk) && freep == old(freep)
                      && size == old(size) && ptr == old(ptr)
      ensures ok ==> brk >= old(brk) + nunits && exists j :: 0 <= j < |ts| && !ts[j].live && ts[j].size >= nunits
    {
      var nu := AtLeast(nunits);
      if brk + nu > limit {
        return false;
      }
      var hp := brk;
      ghost var k, ts0 := |ts|, ts;
      Append(base, ptr, size, freep, ts, lo, brk, nu);
      brk := brk + nu;
      size := size[hp := nu];
      ts := ts + [Tile(hp, nu, true)];
      FreeBlock(hp, k);
      AppendLives(ts0, lo, hp, nu);
      assert ts[|Before(ts0 + [Tile(hp, nu, true)], k)|] == Merged(ts0 + [Tile(hp, nu, true)], k);
      ok := true;
    }

    /** malloc: 0 when there is no block and sbrk refuses; otherwise a new live block of the right size,
        disjoint from every other block because all of them tile the heap.  The search goes around the
        ring at most twice. */
    method Malloc(nbytes: nat) returns (ap: nat)
      requires Valid()
      modifies this`ptr, this`size, this`freep, this`ts, this`brk
      ensures Valid()
      ensures ap == 0 ==> Lives(ts) == Lives(old(ts)) && brk + AtLeast(Units(nbytes)) > limit
                          && forall i :: 0 <= i < |ts| && !ts[i].live ==> ts[i].size < Units(nbytes)
      ensures ap != 0 ==> Lives(ts) == Lives(old(ts)) + {Tile(ap - 1, Units(nbytes), true)}
                          && Tile(ap - 1, Units(nbytes), true) !in Lives(old(ts))
      ensures ap != 0 ==> 16 * (Units(nbytes) - 1) >= nbytes
    {
      var nunits := Units(nbytes);
      if freep == 0 {
        Init();
      }
      ghost var grown := false;
      var prevp := freep;
      ghost var rot := FromFreep(base, ptr, size, freep, ts, lo, brk);
      var p := ptr[prevp];
      ghost var v := 0;
      while true
        invariant freep != 0 && Valid() && Lives(ts) == Lives(old(ts)) && AroundFrom(ptr, freep, base, ts, rot)
        invariant v < |rot| && p == rot[v] && prevp == (if v == 0 then freep else rot[v - 1])
                  && SmallBefore(size, rot, v, nunits)
        invariant grown ==> HasBig(ts, nunits)
        decreases !grown, |rot| - v
      {
        InRing(base, ptr, size, freep, ts, lo, brk, rot, v);
        if size[p] >= nunits {
          ap := Take(prevp, p, nunits);
          return;
        }
        if p == freep {
          assert !grown by {
            NoBig(base, ptr, size, freep, ts, lo, brk, rot, v, nunits);
          }
          var ok := Morecore(nunits);
          if !ok {
            NoneBig(base, ptr, size, freep, ts, lo, brk, rot, v, nunits);
            return 0;
          }
          grown := true;
          p := freep;
          rot := FromFreep(base, ptr, size, freep, ts, lo, brk);
          v := 0;
        } else {
          v := v + 1;
        }
        prevp := p;
        p := ptr[p];
      }
    }

    /** The first call: the ring is base alone. */
    method Init()
      requires freep == 0 && Valid()
      modifies this`ptr, this`size, this`freep
      ensures freep != 0 && Valid()
    {
      ptr := ptr[base := base];
      size := size[base := 0];
      freep := base;
      assert [base] + Frees(ts) == [base];
    }

    /** Take nunits from the end of the free block p, or all of it. */
    method Take(prevp: nat, p: nat, nunits: nat) returns (ap: nat)
      requires freep != 0 && Valid() && nunits > 0 && prevp in [base] + Frees(ts) && prevp in ptr && ptr[prevp] == p
      requires p in [base] + Frees(ts) && p in size && size[p] >= nunits
      modifies this`ptr, this`size, this`freep, this`ts
      ensures freep != 0 && Valid() && ap > 0
      ensures Lives(ts) == Lives(old(ts)) + {Tile(ap - 1, nunits, true)}
              && Tile(ap - 1, nunits, true) !in Lives(old(ts))
    {
      ghost var j := Chosen(base, size, ts, lo, brk, prevp, p);
      if size[p] == nunits {
        TakeAll(base, ptr, size, freep, ts, lo, brk, j, prevp);
        ptr := ptr[prevp := ptr[p]];
        ts := ts[j := Tile(p, nunits, true)];
        ap := p + 1;
      } else {
        TakeSome(base, ptr, size, freep, ts, lo, brk, j, nunits);
        size := size[p := size[p] - nunits];
        var q := p + size[p];
        size := size[q := nunits];
        ts := Split(ts, j, nunits);
        ap := q + 1;
      }
      freep := prevp;
    }
  }
}
