/** What the Kernighan and Ritchie allocator (user/umalloc.c) keeps: the memory obtained from sbrk is
tiled by blocks, live or free, and the free ones are linked into a ring ordered by address.

Addresses count header-sized units. */
module HeapSpec {
  datatype Tile = Tile(start: nat, size: nat, live: bool)

  /** ts covers lo .. hi without gap or overlap. */
  ghost predicate Tiling(ts: seq<Tile>, lo: nat, hi: nat) {
    if ts == [] then lo == hi
    else ts[0].start == lo && ts[0].size > 0 && Tiling(ts[1..], lo + ts[0].size, hi)
  }

  /** No two free blocks touch. */
  ghost predicate Apart(ts: seq<Tile>) {
    forall i {:trigger ApartAt(ts, i)} :: 0 <= i < |ts| - 1 ==> ApartAt(ts, i)
  }

  ghost predicate ApartAt(ts: seq<Tile>, i: nat)
    requires i + 1 < |ts|
  {
    ts[i].live || ts[i + 1].live
  }

  /** The addresses of the free blocks, in order. */
  ghost function Frees(ts: seq<Tile>): seq<nat> {
    if ts == [] then [] else (if ts[0].live then [] else [ts[0].start]) + Frees(ts[1..])
  }

  ghost function Lives(ts: seq<Tile>): set<Tile> {
    set i | 0 <= i < |ts| && ts[i].live :: ts[i]
  }

  lemma {:induction false} TilingJoin(a: seq<Tile>, b: seq<Tile>, lo: nat, mid: nat, hi: nat)
    requires Tiling(a, lo, mid) && Tiling(b, mid, hi)
    ensures Tiling(a + b, lo, hi)
  {
    if a == [] {
      assert a + b == b;
    } else {
      TilingJoin(a[1..], b, lo + a[0].size, mid, hi);
      assert (a + b)[1..] == a[1..] + b;
    }
  }

  /** Cutting a tiling before block k. */
  lemma {:induction false} TilingCut(ts: seq<Tile>, k: nat, lo: nat, hi: nat) returns (mid: nat)
    requires Tiling(ts, lo, hi) && k <= |ts|
    ensures lo <= mid <= hi && Tiling(ts[..k], lo, mid) && Tiling(ts[k..], mid, hi)
    ensures k < |ts| ==> ts[k].start == mid
  {
    if k == 0 {
      mid := lo;
      TilingOrder(ts, lo, hi);
      assert ts[..0] == [] && ts[0..] == ts;
    } else {
      mid := TilingCut(ts[1..], k - 1, lo + ts[0].size, hi);
      assert ts[..k][1..] == ts[1..][..k - 1] && ts[k..] == ts[1..][k - 1..];
    }
  }

  lemma {:induction false} TilingOrder(ts: seq<Tile>, lo: nat, hi: nat)
    requires Tiling(ts, lo, hi)
    ensures lo <= hi && forall i :: 0 <= i < |ts| ==>
                                      lo <= ts[i].start && ts[i].start + ts[i].size <= hi && ts[i].size > 0
  {
    if ts != [] {
      TilingOrder(ts[1..], lo + ts[0].size, hi);
      forall i | 0 <= i < |ts| ensures lo <= ts[i].start && ts[i].start + ts[i].size <= hi && ts[i].size > 0 {
        assert i > 0 ==> ts[i] == ts[1..][i - 1];
      }
    }
  }

  lemma {:induction false} FreesJoin(a: seq<Tile>, b: seq<Tile>)
    ensures Frees(a + b) == Frees(a) + Frees(b)
  {
    if a == [] {
      assert a + b == b;
    } else {
      FreesJoin(a[1..], b);
      assert (a + b)[1..] == a[1..] + b;
    }
  }

  /** The free blocks lie inside, in ascending order. */
  lemma {:induction false} FreesOrder(ts: seq<Tile>, lo: nat, hi: nat)
    requires Tiling(ts, lo, hi)
    ensures lo <= hi
    ensures forall i :: 0 <= i < |Frees(ts)| ==> lo <= Frees(ts)[i] < hi
    ensures forall i, j :: 0 <= i < j < |Frees(ts)| ==> Frees(ts)[i] < Frees(ts)[j]
  {
    if ts != [] {
      FreesOrder(ts[1..], lo + ts[0].size, hi);
    }
  }

  // ---- Rings --------------------------------------------------------------------------------------

  type Links = map<nat, nat>

  /** Following the links from s[0] visits s in order and then arrives at z. */
  ghost predicate Path(ptr: Links, s: seq<nat>, z: nat) {
    forall i {:trigger Hop(ptr, s, z, i)} :: 0 <= i < |s| ==> Hop(ptr, s, z, i)
  }

  ghost predicate Hop(ptr: Links, s: seq<nat>, z: nat, i: nat)
    requires i < |s|
  {
    s[i] in ptr && ptr[s[i]] == (if i + 1 < |s| then s[i + 1] else z)
  }

  ghost predicate Ascending(s: seq<nat>) {
    forall i, j :: 0 <= i < j < |s| ==> s[i] < s[j]
  }

  /** What comes after a prefix of the ring with head z. */
  ghost function Next(b: seq<nat>, z: nat): nat {
    if b == [] then z else b[0]
  }

  lemma {:induction false} PathJoin(ptr: Links, a: seq<nat>, b: seq<nat>, z: nat)
    requires Path(ptr, a, Next(b, z)) && Path(ptr, b, z)
    ensures Path(ptr, a + b, z)
  {
    forall i | 0 <= i < |a + b| ensures Hop(ptr, a + b, z, i) {
      if i < |a| {
        assert Hop(ptr, a, Next(b, z), i);
      } else {
        assert Hop(ptr, b, z, i - |a|);
      }
    }
  }

  lemma {:induction false} PathCut(ptr: Links, a: seq<nat>, b: seq<nat>, z: nat)
    requires Path(ptr, a + b, z)
    ensures Path(ptr, a, Next(b, z)) && Path(ptr, b, z)
  {
    forall i | 0 <= i < |a| ensures Hop(ptr, a, Next(b, z), i) {
      assert Hop(ptr, a + b, z, i);
    }
    forall i | 0 <= i < |b| ensures Hop(ptr, b, z, i) {
      assert Hop(ptr, a + b, z, |a| + i);
    }
  }

  /** A ring may be read from any of its elements on. */
  lemma {:induction false} Rotate(ptr: Links, a: seq<nat>, b: seq<nat>)
    requires a != [] && b != [] && Path(ptr, a + b, a[0])
    ensures Path(ptr, b + a, b[0])
  {
    PathCut(ptr, a, b, a[0]);
    PathJoin(ptr, b, a, b[0]);
  }

  lemma {:induction false} PathFrame(ptr: Links, ptr': Links, s: seq<nat>, z: nat)
    requires Path(ptr, s, z) && forall x :: x in s && x in ptr ==> x in ptr' && ptr'[x] == ptr[x]
    ensures Path(ptr', s, z)
  {
    forall i | 0 <= i < |s| ensures Hop(ptr', s, z, i) {
      assert Hop(ptr, s, z, i);
    }
  }

  /** Redirect the last link of a path. */
  lemma {:induction false} PathEnd(ptr: Links, s: seq<nat>, z: nat, z': nat)
    requires Path(ptr, s, z) && Ascending(s) && s != []
    ensures Path(ptr[s[|s| - 1] := z'], s, z')
  {
    var ptr' := ptr[s[|s| - 1] := z'];
    forall i | 0 <= i < |s| ensures Hop(ptr', s, z', i) {
      assert Hop(ptr, s, z, i);
    }
  }

  /** Insert x between a and b. */
  lemma {:induction false} RingInsert(ptr: Links, a: seq<nat>, b: seq<nat>, x: nat)
    requires a != [] && Ascending(a + b) && x !in a + b && Path(ptr, a + b, a[0])
    ensures Path(ptr[x := Next(b, a[0])][a[|a| - 1] := x], a + [x] + b, a[0])
  {
    var p, z := a[|a| - 1], a[0];
    PathCut(ptr, a, b, z);
    var ptr' := ptr[x := Next(b, z)][p := x];
    LastDiffers(a, b);
    assert forall y :: y in b ==> y in a + b;
    PathEnd(ptr, a, Next(b, z), x);
    PathFrame(ptr[p := x], ptr', a, x);
    PathFrame(ptr, ptr', b, z);
    assert Hop(ptr', [x], Next(b, z), 0);
    PathJoin(ptr', [x], b, z);
    PathJoin(ptr', a, [x] + b, z);
    assert a + [x] + b == a + ([x] + b);
  }

  lemma {:induction false} LastDiffers(a: seq<nat>, b: seq<nat>)
    requires a != [] && Ascending(a + b)
    ensures Ascending(a) && Ascending(b) && a[|a| - 1] !in b && forall y :: y in a ==> y in a + b
  {
    forall i, j | 0 <= i < j < |a| ensures a[i] < a[j] {
      assert (a + b)[i] < (a + b)[j];
    }
    forall i, j | 0 <= i < j < |b| ensures b[i] < b[j] {
      assert (a + b)[|a| + i] < (a + b)[|a| + j];
    }
    forall j | 0 <= j < |b| ensures b[j] != a[|a| - 1] {
      assert (a + b)[|a| - 1] < (a + b)[|a| + j];
    }
  }

  /** Take the element n between a and b out of the ring. */
  lemma {:induction false} RingDrop(ptr: Links, a: seq<nat>, n: nat, b: seq<nat>)
    requires a != [] && Ascending(a + [n] + b) && Path(ptr, a + [n] + b, a[0])
    ensures n in ptr && ptr[n] == Next(b, a[0]) && Path(ptr[a[|a| - 1] := ptr[n]], a + b, a[0])
  {
    var p, z := a[|a| - 1], a[0];
    assert a + [n] + b == a + ([n] + b);
    PathCut(ptr, a, [n] + b, z);
    PathCut(ptr, [n], b, z);
    assert Hop(ptr, [n], Next(b, z), 0);
    LastDiffers(a, [n] + b);
    assert forall y :: y in b ==> y in [n] + b;
    PathEnd(ptr, a, n, ptr[n]);
    PathFrame(ptr, ptr[p := ptr[n]], b, z);
    PathJoin(ptr[p := ptr[n]], a, b, z);
  }

  /** Replace n by x. */
  lemma {:induction false} RingReplace(ptr: Links, a: seq<nat>, n: nat, b: seq<nat>, x: nat)
    requires a != [] && Ascending(a + [n] + b) && x !in a + b && Path(ptr, a + [n] + b, a[0]) && x != n
    ensures n in ptr && Path(ptr[x := ptr[n]][a[|a| - 1] := x], a + [x] + b, a[0])
  {
    RingDrop(ptr, a, n, b);
    var p, z := a[|a| - 1], a[0];
    var ptr1 := ptr[p := ptr[n]];
    assert Ascending(a + b) by {
      forall i, j | 0 <= i < j < |a + b| ensures (a + b)[i] < (a + b)[j] {
        var i', j' := if i < |a| then i else i + 1, if j < |a| then j else j + 1;
        assert (a + [n] + b)[i'] < (a + [n] + b)[j'];
      }
    }
    RingInsert(ptr1, a, b, x);
    assert ptr1[x := Next(b, z)][p := x] == ptr[x := ptr[n]][p := x];
  }

  // ---- Freeing a block ----------------------------------------------------------------------------

  predicate FreeBefore(ts: seq<Tile>, k: nat)
    requires k < |ts|
  {
    k > 0 && !ts[k - 1].live
  }

  predicate FreeAfter(ts: seq<Tile>, k: nat)
    requires k < |ts|
  {
    k + 1 < |ts| && !ts[k + 1].live
  }

  /** The tiles before and after the block that freeing block k makes. */
  ghost function Before(ts: seq<Tile>, k: nat): seq<Tile>
    requires k < |ts|
  {
    if FreeBefore(ts, k) then ts[..k - 1] else ts[..k]
  }

  ghost function After(ts: seq<Tile>, k: nat): seq<Tile>
    requires k < |ts|
  {
    if FreeAfter(ts, k) then ts[k + 2..] else ts[k + 1..]
  }

  ghost function Merged(ts: seq<Tile>, k: nat): Tile
    requires k < |ts|
  {
    Tile(if FreeBefore(ts, k) then ts[k - 1].start else ts[k].start,
         (if FreeBefore(ts, k) then ts[k - 1].size else 0) + ts[k].size
           + (if FreeAfter(ts, k) then ts[k + 1].size else 0), false)
  }

  /** The tiling after block k has been freed and merged with its free neighbours. */
  ghost function Freed(ts: seq<Tile>, k: nat): seq<Tile>
    requires k < |ts|
  {
    Before(ts, k) + [Merged(ts, k)] + After(ts, k)
  }

  lemma {:induction false} FreedTiling(ts: seq<Tile>, k: nat, lo: nat, hi: nat)
    requires Tiling(ts, lo, hi) && k < |ts| && ts[k].live && Apart(ts)
    ensures Tiling(Freed(ts, k), lo, hi) && Apart(Freed(ts, k)) && Lives(Freed(ts, k)) == Lives(ts) - {ts[k]}
  {
    var i, j := if FreeBefore(ts, k) then k - 1 else k, if FreeAfter(ts, k) then k + 2 else k + 1;
    var x := TilingCut(ts, i, lo, hi);
    var y := TilingCut(ts, j, lo, hi);
    TilesBetween(ts, i, j, lo, hi, x, y);
    assert Tiling([Merged(ts, k)], x, y);
    TilingJoin(ts[..i], [Merged(ts, k)], lo, x, y);
    TilingJoin(ts[..i] + [Merged(ts, k)], ts[j..], lo, y, hi);
    FreedApart(ts, k);
    FreedLives(ts, k, lo, hi);
  }

  /** Up to three adjacent tiles end where the next one starts. */
  lemma {:induction false} TilesBetween(ts: seq<Tile>, i: nat, j: nat, lo: nat, hi: nat, x: nat, y: nat)
    requires Tiling(ts, lo, hi) && i < j <= |ts| && j <= i + 3
    requires Tiling(ts[..i], lo, x) && Tiling(ts[i..], x, hi) && Tiling(ts[j..], y, hi)
    requires ts[i].start == x && (j < |ts| ==> ts[j].start == y)
    ensures y == x + ts[i].size + (if j > i + 1 then ts[i + 1].size else 0) + (if j > i + 2 then ts[i + 2].size else 0)
    ensures j > i + 1 ==> ts[i + 1].start == x + ts[i].size
    ensures j > i + 2 ==> ts[i + 2].start == x + ts[i].size + ts[i + 1].size
  {
    TilingStep(ts, i, x, hi);
    if j > i + 1 {
      TilingStep(ts, i + 1, x + ts[i].size, hi);
      if j > i + 2 {
        TilingStep(ts, i + 2, x + ts[i].size + ts[i + 1].size, hi);
      }
    }
    EndUnique(ts[j..], y, x + ts[i].size + (if j > i + 1 then ts[i + 1].size else 0)
              + (if j > i + 2 then ts[i + 2].size else 0), hi);
  }

  lemma {:induction false} TilingStep(ts: seq<Tile>, i: nat, x: nat, hi: nat)
    requires i < |ts| && Tiling(ts[i..], x, hi)
    ensures ts[i].start == x && ts[i].size > 0 && Tiling(ts[i + 1..], x + ts[i].size, hi)
  {
    assert ts[i..][1..] == ts[i + 1..];
  }

  lemma EndUnique(ts: seq<Tile>, x: nat, y: nat, hi: nat)
    requires Tiling(ts, x, hi) && Tiling(ts, y, hi)
    ensures x == y
  {
  }

  lemma {:induction false} FreedApart(ts: seq<Tile>, k: nat)
    requires k < |ts| && ts[k].live && Apart(ts)
    ensures Apart(Freed(ts, k))
  {
    var ts' := Freed(ts, k);
    var b, d := |Before(ts, k)|, |ts| - |ts'|;
    assert ts'[b] == Merged(ts, k);
    forall i | 0 <= i < |ts'| - 1 ensures ApartAt(ts', i) {
      if i + 1 < b {
        assert ApartAt(ts, i) && ts'[i] == ts[i] && ts'[i + 1] == ts[i + 1];
      } else if i + 1 == b {
        assert ApartAt(ts, b - 1) && ts'[i] == ts[b - 1];
      } else if i == b {
        assert ts'[b + 1] == ts[b + 1 + d] && ApartAt(ts, b + d);
      } else {
        assert ApartAt(ts, i + d) && ts'[i] == ts[i + d] && ts'[i + 1] == ts[i + 1 + d];
      }
    }
  }

  /** Blocks have different addresses. */
  lemma {:induction false} StartsDiffer(ts: seq<Tile>, lo: nat, hi: nat, i: nat, j: nat)
    requires Tiling(ts, lo, hi) && i < j < |ts|
    ensures ts[i].start + ts[i].size <= ts[j].start && ts[i].size > 0
  {
    if i == 0 {
      TilingOrder(ts[1..], lo + ts[0].size, hi);
      assert ts[j] == ts[1..][j - 1];
    } else {
      StartsDiffer(ts[1..], lo + ts[0].size, hi, i - 1, j - 1);
    }
  }

  lemma {:induction false} FreedLives(ts: seq<Tile>, k: nat, lo: nat, hi: nat)
    requires Tiling(ts, lo, hi) && k < |ts| && ts[k].live
    ensures Lives(Freed(ts, k)) == Lives(ts) - {ts[k]}
  {
    forall t | t in Lives(Freed(ts, k)) ensures t in Lives(ts) - {ts[k]} {
      StillLive(ts, k, lo, hi, t);
    }
    forall t | t in Lives(ts) - {ts[k]} ensures t in Lives(Freed(ts, k)) {
      var i :| 0 <= i < |ts| && ts[i].live && ts[i] == t;
      var i' := if i < k then i else i + |Freed(ts, k)| - |ts|;
      assert Freed(ts, k)[i'] == t;
    }
  }

  lemma {:induction false} StillLive(ts: seq<Tile>, k: nat, lo: nat, hi: nat, t: Tile)
    requires Tiling(ts, lo, hi) && k < |ts| && ts[k].live && t in Lives(Freed(ts, k))
    ensures t in Lives(ts) && t != ts[k]
  {
    var ts' := Freed(ts, k);
    var i :| 0 <= i < |ts'| && ts'[i].live && ts'[i] == t;
    var i' := if i < |Before(ts, k)| then i else i - |ts'| + |ts|;
    assert ts[i'] == t && i' != k;
    StartsDiffer(ts, lo, hi, if i' < k then i' else k, if i' < k then k else i');
  }

  /** What freeing does to the list of free blocks: Merged takes the place of its parts. */
  lemma {:induction false} FreedFrees(ts: seq<Tile>, k: nat)
    requires k < |ts| && ts[k].live
    ensures Frees(Freed(ts, k)) == Frees(Before(ts, k)) + [Merged(ts, k).start] + Frees(After(ts, k))
  {
    FreesAround(Before(ts, k), Merged(ts, k), After(ts, k));
  }

  lemma {:induction false} FreesSplit(ts: seq<Tile>, k: nat)
    requires k < |ts|
    ensures Frees(ts) == Frees(ts[..k]) + (if ts[k].live then [] else [ts[k].start]) + Frees(ts[k + 1..])
  {
    FreesAround(ts[..k], ts[k], ts[k + 1..]);
    assert ts == ts[..k] + [ts[k]] + ts[k + 1..];
  }

  lemma {:induction false} FreesBefore(ts: seq<Tile>, k: nat)
    requires k < |ts|
    ensures Frees(ts[..k]) == Frees(Before(ts, k)) + if FreeBefore(ts, k) then [ts[k - 1].start] else []
  {
    if FreeBefore(ts, k) {
      FreesSplit(ts[..k], k - 1);
      assert ts[..k][..k - 1] == ts[..k - 1] && ts[..k][k..] == [];
    }
  }

  lemma {:induction false} FreesAfter(ts: seq<Tile>, k: nat)
    requires k < |ts|
    ensures Frees(ts[k + 1..]) == (if FreeAfter(ts, k) then [ts[k + 1].start] else []) + Frees(After(ts, k))
  {
    if FreeAfter(ts, k) {
      assert ts[k + 1..][1..] == ts[k + 2..];
    }
  }

  lemma {:induction false} FreesAround(a: seq<Tile>, t: Tile, b: seq<Tile>)
    ensures Frees(a + [t] + b) == Frees(a) + (if t.live then [] else [t.start]) + Frees(b)
  {
    FreesJoin(a, [t]);
    FreesJoin(a + [t], b);
    FreesOne(t);
  }

  lemma {:induction false} FreesOne(t: Tile)
    ensures Frees([t]) == if t.live then [] else [t.start]
  {
    assert [t][1..] == [];
  }
}
