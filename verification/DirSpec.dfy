/** Directories (kernel/fs.h, kernel/fs.c): a file of 16-byte entries that stands for a finite map from
names, cut to DIRSIZ bytes, to inode numbers. */
module DirSpec {
  import opened ByteString
  import opened DiskBytes

  const DIRSIZ: nat := 14
  const DIRENT: nat := 16

  type Name = seq<byte>

  /** What strncpy stores for a name: its first DIRSIZ bytes, padded with zeros. */
  function Pad(name: Name): (key: Name)
    ensures |key| == DIRSIZ
  {
    seq(DIRSIZ, i requires 0 <= i => if i < |name| then name[i] else 0)
  }

  /** Once a stored name has a zero byte, only zeros follow. */
  ghost predicate Canonical(key: Name) {
    forall i, j :: 0 <= i < j < |key| && key[i] == 0 ==> key[j] == 0
  }

  ghost predicate NoZero(name: Name) {
    forall i :: 0 <= i < |name| ==> name[i] != 0
  }

  ghost predicate DirSize(d: seq<byte>) {
    |d| % DIRENT == 0
  }

  function Count(d: seq<byte>): nat {
    |d| / DIRENT
  }

  function InumOf(e: seq<byte>): nat
    requires |e| == DIRENT
  {
    var lo: nat, hi: nat := e[0], e[1];
    lo + 256 * hi
  }

  function NameOf(e: seq<byte>): (key: Name)
    requires |e| == DIRENT
    ensures |key| == DIRSIZ
  {
    e[2..]
  }

  /** Entry k. */
  function Entry(d: seq<byte>, k: nat): (e: seq<byte>)
    requires k < Count(d)
    ensures |e| == DIRENT
  {
    d[DIRENT * k..DIRENT * k + DIRENT]
  }

  /** A struct dirent. */
  function Dirent(inum: nat, key: Name): (e: seq<byte>)
    requires inum < 65536 && |key| == DIRSIZ
    ensures |e| == DIRENT && InumOf(e) == inum && NameOf(e) == key
  {
    [inum % 256, inum / 256] + key
  }

  ghost predicate Live(d: seq<byte>, k: nat) {
    k < Count(d) && InumOf(Entry(d, k)) != 0
  }

  /** No two entries in use have the same name. */
  ghost predicate Unique(d: seq<byte>) {
    forall j: nat, k: nat {:trigger Differ(d, j, k)} :: Live(d, j) && Live(d, k) && j != k ==> Differ(d, j, k)
  }

  ghost predicate Differ(d: seq<byte>, j: nat, k: nat)
    requires Live(d, j) && Live(d, k)
  {
    NameOf(Entry(d, j)) != NameOf(Entry(d, k))
  }

  lemma SameEntry(d: seq<byte>)
    requires Unique(d)
    ensures forall j: nat, k: nat :: Live(d, j) && Live(d, k) && NameOf(Entry(d, j)) == NameOf(Entry(d, k)) ==> j == k
  {
    forall j: nat, k: nat | Live(d, j) && Live(d, k) && NameOf(Entry(d, j)) == NameOf(Entry(d, k)) ensures j == k {
      assert j != k ==> Differ(d, j, k);
    }
  }

  ghost predicate DirOk(d: seq<byte>) {
    DirSize(d) && Unique(d) && forall k :: Live(d, k) ==> Canonical(NameOf(Entry(d, k)))
  }

  /** The map that a directory stands for. */
  ghost function DirMap(d: seq<byte>): map<Name, nat>
    requires Unique(d)
  {
    SameEntry(d);
    map k | 0 <= k < Count(d) && Live(d, k) :: NameOf(Entry(d, k)) := InumOf(Entry(d, k))
  }

  lemma Bound(d: seq<byte>, k: nat)
    requires Unique(d) && Live(d, k)
    ensures NameOf(Entry(d, k)) in DirMap(d) && DirMap(d)[NameOf(Entry(d, k))] == InumOf(Entry(d, k))
  {
    SameEntry(d);
  }

  lemma BoundBy(d: seq<byte>, key: Name) returns (k: nat)
    requires Unique(d) && key in DirMap(d)
    ensures Live(d, k) && NameOf(Entry(d, k)) == key && DirMap(d)[key] == InumOf(Entry(d, k))
  {
    k :| 0 <= k < Count(d) && Live(d, k) && NameOf(Entry(d, k)) == key;
    Bound(d, k);
  }

  lemma Unbound(d: seq<byte>, key: Name)
    requires Unique(d) && forall k :: 0 <= k < Count(d) && Live(d, k) ==> NameOf(Entry(d, k)) != key
    ensures key !in DirMap(d)
  {
  }

  /** The directory with entry k (which may be one past the end) replaced. */
  ghost function Put(d: seq<byte>, k: nat, e: seq<byte>): (d': seq<byte>)
    requires DirSize(d) && k <= Count(d) && |e| == DIRENT
    ensures DirSize(d') && Count(d') == if k < Count(d) then Count(d) else k + 1
  {
    d[..DIRENT * k] + e + if k < Count(d) then d[DIRENT * k + DIRENT..] else []
  }

  lemma PutEntry(d: seq<byte>, k: nat, e: seq<byte>, j: nat)
    requires DirSize(d) && k <= Count(d) && |e| == DIRENT && j < Count(Put(d, k, e))
    ensures Entry(Put(d, k, e), j) == if j == k then e else Entry(d, j)
  {
    var d' := Put(d, k, e);
    if j < k {
      assert d'[..DIRENT * k] == d[..DIRENT * k];
      assert Entry(d', j) == d'[..DIRENT * k][DIRENT * j..DIRENT * j + DIRENT];
      assert Entry(d, j) == d[..DIRENT * k][DIRENT * j..DIRENT * j + DIRENT];
    } else if j > k {
      assert d'[DIRENT * k + DIRENT..] == d[DIRENT * k + DIRENT..];
      var o := DIRENT * (j - k - 1);
      assert Entry(d', j) == d'[DIRENT * k + DIRENT..][o..o + DIRENT];
      assert Entry(d, j) == d[DIRENT * k + DIRENT..][o..o + DIRENT];
    }
  }

  /** A new name in a free entry, or in one more, is added to the map. */
  lemma AddName(d: seq<byte>, k: nat, key: Name, inum: nat)
    requires DirOk(d) && k <= Count(d) && !Live(d, k) && |key| == DIRSIZ && Canonical(key) && 0 < inum < 65536
             && key !in DirMap(d)
    ensures DirOk(Put(d, k, Dirent(inum, key))) && DirMap(Put(d, k, Dirent(inum, key))) == DirMap(d)[key := inum]
  {
    var d' := Put(d, k, Dirent(inum, key));
    forall j: nat ensures Live(d', j) <==> j == k || Live(d, j) {
      if j < Count(d') {
        PutEntry(d, k, Dirent(inum, key), j);
      }
    }
    forall j: nat | Live(d', j) ensures Entry(d', j) == if j == k then Dirent(inum, key) else Entry(d, j) {
      PutEntry(d, k, Dirent(inum, key), j);
    }
    forall i: nat, j: nat | Live(d', i) && Live(d', j) && i != j ensures Differ(d', i, j) {
      if i != k && j != k {
        assert Differ(d, i, j);
      } else {
        Bound(d, if i == k then j else i);
      }
    }
    AddedMap(d, d', k, key, inum);
  }

  lemma AddedMap(d: seq<byte>, d': seq<byte>, k: nat, key: Name, inum: nat)
    requires Unique(d) && Unique(d') && !Live(d, k) && (forall j: nat :: Live(d', j) <==> j == k || Live(d, j))
    requires forall j: nat :: Live(d, j) ==> Live(d', j) && Entry(d', j) == Entry(d, j)
    requires Live(d', k) && NameOf(Entry(d', k)) == key && InumOf(Entry(d', k)) == inum
    ensures DirMap(d') == DirMap(d)[key := inum]
  {
    var m, m' := DirMap(d)[key := inum], DirMap(d');
    forall x | x in m' ensures x in m && m[x] == m'[x] {
      var j := BoundBy(d', x);
      if j != k {
        Bound(d, j);
        assert Differ(d', j, k);
      }
    }
    forall x | x in m ensures x in m' {
      if x != key {
        var j := BoundBy(d, x);
        Bound(d', j);
      } else {
        Bound(d', k);
      }
    }
  }

  /** Clearing an entry takes its name out of the map. */
  lemma RemoveName(d: seq<byte>, k: nat, zeros: seq<byte>)
    requires DirOk(d) && Live(d, k) && |zeros| == DIRENT && InumOf(zeros) == 0
    ensures DirOk(Put(d, k, zeros)) && DirMap(Put(d, k, zeros)) == DirMap(d) - {NameOf(Entry(d, k))}
  {
    var d' := Put(d, k, zeros);
    forall j: nat ensures Live(d', j) <==> j != k && Live(d, j) {
      if j < Count(d') {
        PutEntry(d, k, zeros, j);
      }
    }
    forall j: nat | Live(d', j) ensures Entry(d', j) == Entry(d, j) {
      PutEntry(d, k, zeros, j);
    }
    forall i: nat, j: nat | Live(d', i) && Live(d', j) && i != j ensures Differ(d', i, j) {
      assert Differ(d, i, j);
    }
    RemovedMap(d, d', k);
  }

  lemma RemovedMap(d: seq<byte>, d': seq<byte>, k: nat)
    requires Unique(d) && Unique(d') && Live(d, k) && (forall j: nat :: Live(d', j) <==> j != k && Live(d, j))
    requires forall j: nat :: Live(d', j) ==> Live(d, j) && Entry(d', j) == Entry(d, j)
    ensures DirMap(d') == DirMap(d) - {NameOf(Entry(d, k))}
  {
    var m, m' := DirMap(d) - {NameOf(Entry(d, k))}, DirMap(d');
    forall x | x in m' ensures x in m && m[x] == m'[x] {
      var j := BoundBy(d', x);
      Bound(d, j);
      assert Differ(d, j, k);
    }
    forall x | x in m ensures x in m' {
      var j := BoundBy(d, x);
      Bound(d', j);
    }
  }

  // ---- Paths --------------------------------------------------------------------------------------

  const SLASH: byte := 47

  /** Where the first component of a path that does not start with a slash ends. */
  function ElemEnd(path: Name): (n: nat)
    ensures n <= |path| && (forall i :: 0 <= i < n ==> path[i] != SLASH) && (n < |path| ==> path[n] == SLASH)
  {
    if path == [] || path[0] == SLASH then 0 else 1 + ElemEnd(path[1..])
  }

  /** The non-empty components of a path, in order. */
  function Components(path: Name): (c: seq<Name>)
    ensures forall i :: 0 <= i < |c| ==> c[i] != [] && SLASH !in c[i]
    decreases |path|
  {
    if path == [] then []
    else if path[0] == SLASH then Components(path[1..])
    else [path[..ElemEnd(path)]] + Components(path[ElemEnd(path)..])
  }

  function Join(c: seq<Name>): Name {
    if c == [] then [] else [SLASH] + c[0] + Join(c[1..])
  }

  /** Splitting undoes joining. */
  lemma {:induction false} SplitJoin(c: seq<Name>)
    requires forall i :: 0 <= i < |c| ==> c[i] != [] && SLASH !in c[i]
    ensures Components(Join(c)) == c
  {
    if c != [] {
      var rest := Join(c[1..]);
      assert Join(c)[1..] == c[0] + rest;
      SplitJoin(c[1..]);
      FirstComponent(c[0], rest);
    }
  }

  lemma {:induction false} FirstComponent(a: Name, rest: Name)
    requires a != [] && SLASH !in a && (rest != [] ==> rest[0] == SLASH)
    ensures Components(a + rest) == [a] + Components(rest)
  {
    var path := a + rest;
    assert a[0] in a && path[0] == a[0];
    ElemOf(a, rest);
    assert path[..|a|] == a && path[|a|..] == rest;
  }

  lemma {:induction false} ElemOf(a: Name, rest: Name)
    requires SLASH !in a && (rest != [] ==> rest[0] == SLASH)
    ensures ElemEnd(a + rest) == |a|
  {
    if a != [] {
      assert a[0] in a && forall x :: x in a[1..] ==> x in a;
      assert (a + rest)[1..] == a[1..] + rest;
      ElemOf(a[1..], rest);
    } else {
      assert a + rest == rest;
    }
  }
}
