/** Taking a page table apart (freewalk in kernel/vm.c): which pages belong to a subtree, and what
unlinking and freeing them does to the ledger. */
module FreeWalk {
  import opened PageTable

  /** Drop n 9-bit groups from a prefix. */
  function Up(prefix: nat, n: nat): nat {
    if n == 0 then prefix else if n == 1 then prefix / 512 else prefix / 512 / 512
  }

  /** The page has lost its parent. */
  function Detach(k: Kind): Kind
    requires k.Table?
  {
    Table(k.root, k.level, k.prefix, 0)
  }

  /** A table page in the subtree of the page with this level and prefix. */
  predicate Under(k: Kind, root: nat, level: nat, prefix: nat) {
    k.Table? && k.root == root && k.level <= level && Up(k.prefix, level - k.level) == prefix
  }

  /** A table page below that page, through an entry before i. */
  predicate UnderBefore(k: Kind, root: nat, level: nat, prefix: nat, i: nat) {
    Under(k, root, level, prefix) && k.level < level && Up(k.prefix, level - 1 - k.level) % 512 < i
  }

  /** The pages below p before entry i + 1 are those before i and the subtree of entry i. */
  lemma UnderSplit(k: Kind, root: nat, level: nat, prefix: nat, i: nat)
    requires 0 < level <= 2 && i < ENTRIES
    ensures UnderBefore(k, root, level, prefix, i + 1) <==>
            UnderBefore(k, root, level, prefix, i) || Under(k, root, level - 1, prefix * 512 + i)
  {
    if k.Table? && k.level < level {
      var x := Up(k.prefix, level - 1 - k.level);
      assert Up(k.prefix, level - k.level) == x / 512;
      assert x == x / 512 * 512 + x % 512;
    }
  }

  /** No level-0 page of the table has a mapping left. */
  ghost predicate Bare(mem: Memory, kind: Kinds, root: nat)
    requires MemOk(mem, kind)
  {
    forall q, i {:trigger mem[q][i]} :: q in kind && kind[q].Table? && kind[q].root == root && kind[q].level == 0
                                        && 0 <= i < ENTRIES ==>
      !IsValid(mem[q][i])
  }

  /** freewalk may start at p: p is the one page of its place, cut off from above unless it is the root,
      and everything below hangs together. */
  ghost predicate Cut(kind: Kinds, p: nat, root: nat, level: nat, prefix: nat) {
    && p in kind && kind[p].Table? && kind[p].root == root && kind[p].level == level <= 2 && kind[p].prefix == prefix
    && (level < 2 ==> Detached(kind[p]))
    && (forall q :: q in kind && kind[q].Table? && kind[q].root == root && kind[q].level == level
                    && kind[q].prefix == prefix ==>
          q == p)
    && (forall q :: q in kind && kind[q].Table? && kind[q].root == root && kind[q].level < level ==> !Detached(kind[q]))
  }

  /** Exactly the pages below p through entries before i have become free. */
  ghost predicate FreedBefore(kind: Kinds, kind': Kinds, root: nat, level: nat, prefix: nat, i: nat) {
    && kind'.Keys == kind.Keys
    && forall q :: q in kind ==> kind'[q] == if UnderBefore(kind[q], root, level, prefix, i) then Free else kind[q]
  }

  /** Exactly the pages of the subtree have become free. */
  ghost predicate Freed(kind: Kinds, kind': Kinds, root: nat, level: nat, prefix: nat) {
    && kind'.Keys == kind.Keys
    && forall q :: q in kind ==> kind'[q] == if Under(kind[q], root, level, prefix) then Free else kind[q]
  }

  /** A page directly below p is named by p's entry for it. */
  lemma DirectChild(mem: Memory, kind: Kinds, p: nat, root: nat, level: nat, prefix: nat, q: nat)
    requires InvWhile(mem, kind, true) && 0 < level && Cut(kind, p, root, level, prefix)
    requires q in kind && kind[q].Table? && kind[q].root == root && kind[q].level == level - 1
             && kind[q].prefix / 512 == prefix
    ensures IsValid(mem[p][kind[q].prefix % 512]) && Ppn(mem[p][kind[q].prefix % 512]) == q
  {
    assert AnchorOk(mem, kind, q);
  }

  /** Through an invalid entry there is nothing below p. */
  lemma NothingBelow(mem: Memory, kind: Kinds, p: nat, root: nat, level: nat, prefix: nat, i: nat, q: nat)
    requires InvWhile(mem, kind, true) && 0 < level && Cut(kind, p, root, level, prefix) && i < ENTRIES
    requires !IsValid(mem[p][i]) && q in kind
    ensures !(UnderBefore(kind[q], root, level, prefix, i + 1) && !UnderBefore(kind[q], root, level, prefix, i))
  {
    if UnderBefore(kind[q], root, level, prefix, i + 1) && !UnderBefore(kind[q], root, level, prefix, i) {
      if kind[q].level == level - 1 {
        DirectChild(mem, kind, p, root, level, prefix, q);
      } else {
        assert AnchorOk(mem, kind, q);
        DirectChild(mem, kind, p, root, level, prefix, kind[q].up);
      }
    }
  }

  /** Cutting off the child in entry i: the child is the one page of its place. */
  lemma CutChild(mem: Memory, kind: Kinds, p: nat, root: nat, level: nat, prefix: nat, i: nat)
    requires InvWhile(mem, kind, true) && 0 < level && Cut(kind, p, root, level, prefix) && i < ENTRIES
             && IsValid(mem[p][i])
    ensures var c := Ppn(mem[p][i]);
            && c in kind && c != p && kind[c] == Table(root, level - 1, prefix * 512 + i, p)
            && InvWhile(SetEntry(mem, p, i, 0), kind[c := Detach(kind[c])], true)
            && Cut(kind[c := Detach(kind[c])], c, root, level - 1, prefix * 512 + i)
  {
    assert EntryOk(mem, kind, p, i);
    var c := Ppn(mem[p][i]);
    var mem', kind' := SetEntry(mem, p, i, 0), kind[c := Detach(kind[c])];
    forall q | q in kind' && kind'[q].Table? && kind'[q].root == root && kind'[q].level == level - 1
      && kind'[q].prefix == prefix * 512 + i
      ensures q == c
    {
      if q != c {
        DirectChild(mem, kind, p, root, level, prefix, q);
      }
    }
    CutChildInv(mem, kind, p, i, c);
  }

  lemma CutChildInv(mem: Memory, kind: Kinds, p: nat, i: nat, c: nat)
    requires InvWhile(mem, kind, true) && p in kind && kind[p].Table? && 0 < kind[p].level <= 2 && i < ENTRIES
    requires IsValid(mem[p][i]) && c == Ppn(mem[p][i]) && c in kind
    requires kind[c] == Table(kind[p].root, kind[p].level - 1, kind[p].prefix * 512 + i, p) && c != p
    ensures InvWhile(SetEntry(mem, p, i, 0), kind[c := Detach(kind[c])], true)
  {
    var mem', kind' := SetEntry(mem, p, i, 0), kind[c := Detach(kind[c])];
    forall r, j | r in kind' && kind'[r].Table? && 0 <= j < ENTRIES ensures EntryOk(mem', kind', r, j) {
      assert EntryOk(mem, kind, r, j);
    }
    forall r | r in kind' ensures Detached(kind'[r]) || AnchorOk(mem', kind', r) {
      assert Detached(kind[r]) || AnchorOk(mem, kind, r);
    }
  }

  /** When every entry is gone, the table page itself is just an allocated page. */
  lemma Retire(mem: Memory, kind: Kinds, p: nat, root: nat, level: nat, prefix: nat)
    requires InvWhile(mem, kind, true) && Cut(kind, p, root, level, prefix)
    requires forall i :: 0 <= i < ENTRIES ==> !IsValid(mem[p][i])
    ensures InvWhile(mem, kind[p := Other], true)
  {
    var kind' := kind[p := Other];
    forall r, j | r in kind' && kind'[r].Table? && 0 <= j < ENTRIES ensures EntryOk(mem, kind', r, j) {
      assert EntryOk(mem, kind, r, j);
      assert Detached(kind[r]) || AnchorOk(mem, kind, r);
    }
    forall r | r in kind' ensures Detached(kind'[r]) || AnchorOk(mem, kind', r) {
      assert Detached(kind[r]) || AnchorOk(mem, kind, r);
    }
  }
}
