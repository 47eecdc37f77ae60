/** The redo log of kernel/log.c on the disk: what commit and recovery write, what a disk
recovers to, and why a crash between any two block writes is harmless. */
module LogSpec {
  import opened Blocks

  const MAXOPBLOCKS := 10
  const LOGSIZE := 30

  /** The log area: header block at `start`, then `size - 1` data slots. */
  datatype Layout = Layout(start: nat, size: nat) {
    ghost predicate Ok(blocks: nat) {
      1 <= size <= LOGSIZE && start + size <= blocks
    }
    /** Where the i-th logged block is stored. */
    function Slot(i: int): int {
      start + 1 + i
    }
    /** A home block: any block outside the log area. */
    predicate Home(a: int) {
      0 <= a && !(start <= a < start + size)
    }
  }

  ghost predicate Distinct(lh: seq<int>) {
    forall i, j :: 0 <= i < j < |lh| ==> lh[i] != lh[j]
  }

  /** A block list the log may hold: distinct home blocks of the disk that fit the slots. */
  ghost predicate ListOk(L: Layout, blocks: nat, lh: seq<int>) {
    && |lh| <= L.size - 1
    && Distinct(lh)
    && forall i :: 0 <= i < |lh| ==> L.Home(lh[i]) && lh[i] < blocks
  }

  /** log_write's first panic, tested before absorption. */
  predicate TooBig(L: Layout, lh: seq<int>) {
    |lh| >= LOGSIZE || |lh| >= L.size - 1
  }

  /** The list after logging block `at`: a block already listed is absorbed. */
  function Absorb(lh: seq<int>, at: int): (r: seq<int>) {
    if at in lh then lh else lh + [at]
  }

  /** read_head: the list stored in a header block. */
  ghost function Listed(hd: Block): (lh: seq<int>) {
    if 0 <= hd[0] < WORDS then hd[1..1 + hd[0]] else []
  }

  /** write_head: store n and the first n entries, leaving the rest of the block alone. */
  function PutHead(prior: Block, lh: seq<int>): (hd: Block)
    requires |lh| < WORDS
  {
    [|lh|] + lh + prior[1 + |lh|..]
  }

  lemma HeadRoundTrip(prior: Block, lh: seq<int>)
    requires |lh| < WORDS
    ensures Listed(PutHead(prior, lh)) == lh
  {
    assert PutHead(prior, lh)[1..1 + |lh|] == lh;
  }

  ghost predicate DiskOk(L: Layout, d: seq<Block>) {
    && L.Ok(|d|)
    && d[L.start][0] == |Listed(d[L.start])|
    && ListOk(L, |d|, Listed(d[L.start]))
  }

  ghost predicate LogEmpty(L: Layout, d: seq<Block>)
    requires L.Ok(|d|)
  {
    d[L.start][0] == 0
  }

  // ---- Recovery ---------------------------------------------------------------------

  /** recover_from_log's writes: each logged block to its home, then an empty header. */
  ghost function RecoverWrite(L: Layout, d: seq<Block>, i: nat): Write
    requires DiskOk(L, d) && i <= |Listed(d[L.start])|
  {
    var lh := Listed(d[L.start]);
    if i < |lh| then Write(lh[i], d[L.Slot(i)])
    else Write(L.start, PutHead(d[L.start], []))
  }

  ghost function RecoverWrites(L: Layout, d: seq<Block>): (ws: seq<Write>)
    requires DiskOk(L, d)
    ensures InRange(ws, |d|)
  {
    seq(|Listed(d[L.start])| + 1, i requires 0 <= i <= |Listed(d[L.start])| => RecoverWrite(L, d, i))
  }

  /** The disk that recovery leaves behind. */
  ghost function Recovered(L: Layout, d: seq<Block>): (r: seq<Block>)
    requires DiskOk(L, d)
  {
    Apply(d, RecoverWrites(L, d))
  }

  /** The home blocks of the recovered disk: what a crash now would leave readable. */
  ghost function Durable(L: Layout, d: seq<Block>): (m: map<nat, Block>)
    requires DiskOk(L, d)
    ensures forall a: nat :: a in m <==> a < |d| && L.Home(a)
  {
    map a: nat | a < |d| && L.Home(a) :: Recovered(L, d)[a]
  }

  ghost function HomeBlocks(L: Layout, d: seq<Block>): (m: map<nat, Block>)
    ensures forall a: nat :: a in m <==> a < |d| && L.Home(a)
  {
    map a: nat | a < |d| && L.Home(a) :: d[a]
  }

  /** `e` is `d` after the first k recovery writes. */
  ghost predicate RecoveredUpTo(L: Layout, d: seq<Block>, e: seq<Block>, k: nat)
    requires DiskOk(L, d)
  {
    var lh := Listed(d[L.start]);
    && |e| == |d|
    && (forall i :: 0 <= i < |lh| ==> e[lh[i]] == if i < k then d[L.Slot(i)] else d[lh[i]])
    && (forall a :: 0 <= a < |d| && a != L.start && a !in lh ==> e[a] == d[a])
    && e[L.start] == if k <= |lh| then d[L.start] else PutHead(d[L.start], [])
  }

  lemma RecoverStep(L: Layout, d: seq<Block>, e: seq<Block>, k: nat)
    requires DiskOk(L, d) && k <= |Listed(d[L.start])| && RecoveredUpTo(L, d, e, k)
    ensures var w := RecoverWrite(L, d, k); RecoveredUpTo(L, d, e[w.at := w.data], k + 1)
  {
    var lh := Listed(d[L.start]);
    var w := RecoverWrite(L, d, k);
    var e' := e[w.at := w.data];
    forall i | 0 <= i < |lh| ensures e'[lh[i]] == if i < k + 1 then d[L.Slot(i)] else d[lh[i]] {
      if i != k && k < |lh| {
        assert lh[i] != lh[k];
      }
    }
  }

  lemma {:induction false} RecoverPrefix(L: Layout, d: seq<Block>, k: nat)
    requires DiskOk(L, d) && k <= |RecoverWrites(L, d)|
    ensures InRange(RecoverWrites(L, d)[..k], |d|)
    ensures RecoveredUpTo(L, d, Apply(d, RecoverWrites(L, d)[..k]), k)
  {
    var ws := RecoverWrites(L, d);
    if k == 0 {
      assert ws[..0] == [];
    } else {
      RecoverPrefix(L, d, k - 1);
      PrefixApply(d, ws, k - 1);
      RecoverStep(L, d, Apply(d, ws[..k - 1]), k - 1);
    }
  }

  /** Recovery copies each committed block home, touches no other home block, and empties the log. */
  lemma RecoveredContents(L: Layout, d: seq<Block>)
    requires DiskOk(L, d)
    ensures var lh := Listed(d[L.start]);
            && (forall i :: 0 <= i < |lh| ==> Recovered(L, d)[lh[i]] == d[L.Slot(i)])
            && (forall a :: 0 <= a < |d| && a != L.start && a !in lh ==> Recovered(L, d)[a] == d[a])
            && LogEmpty(L, Recovered(L, d))
            && DiskOk(L, Recovered(L, d))
  {
    var ws := RecoverWrites(L, d);
    assert ws[..|ws|] == ws;
    RecoverPrefix(L, d, |ws|);
  }

  /** Two disks with the same header and slots, agreeing on unlisted home blocks, recover alike. */
  lemma SameDurable(L: Layout, d: seq<Block>, e: seq<Block>)
    requires DiskOk(L, d) && |e| == |d| && e[L.start] == d[L.start]
    requires var lh := Listed(d[L.start]);
             && (forall i :: 0 <= i < |lh| ==> e[L.Slot(i)] == d[L.Slot(i)])
             && (forall a :: 0 <= a < |d| && L.Home(a) && a !in lh ==> e[a] == d[a])
    ensures DiskOk(L, e) && Durable(L, e) == Durable(L, d)
  {
    RecoveredContents(L, d);
    RecoveredContents(L, e);
    var lh := Listed(d[L.start]);
    forall a: nat | a < |d| && L.Home(a) ensures Recovered(L, e)[a] == Recovered(L, d)[a] {
      if a in lh {
        var i :| 0 <= i < |lh| && lh[i] == a;
      }
    }
  }

  /** A clean log recovers to itself. */
  lemma EmptyDurable(L: Layout, d: seq<Block>)
    requires DiskOk(L, d) && LogEmpty(L, d)
    ensures Durable(L, d) == HomeBlocks(L, d)
  {
    RecoveredContents(L, d);
  }

  /** Crash inside recovery: after any number k of recovery's writes the disk still recovers
      to the same home blocks, so recovery may be restarted as often as it is interrupted. */
  lemma RecoveryCrash(L: Layout, d: seq<Block>, k: nat)
    requires DiskOk(L, d) && k <= |RecoverWrites(L, d)|
    ensures InRange(RecoverWrites(L, d)[..k], |d|)
    ensures var e := Apply(d, RecoverWrites(L, d)[..k]);
            DiskOk(L, e) && Durable(L, e) == Durable(L, d)
  {
    var lh := Listed(d[L.start]);
    RecoverPrefix(L, d, k);
    var e := Apply(d, RecoverWrites(L, d)[..k]);
    if k <= |lh| {
      SameDurable(L, d, e);
    } else {
      assert RecoverWrites(L, d)[..k] == RecoverWrites(L, d);
      RecoveredContents(L, d);
      EmptyDurable(L, e);
    }
  }

  /** Running recovery a second time changes no home block. */
  lemma RecoveryIdempotent(L: Layout, d: seq<Block>)
    requires DiskOk(L, d)
    ensures DiskOk(L, Recovered(L, d))
    ensures Durable(L, Recovered(L, d)) == Durable(L, d) == HomeBlocks(L, Recovered(L, d))
  {
    RecoveredContents(L, d);
    EmptyDurable(L, Recovered(L, d));
  }

  // ---- Commit -----------------------------------------------------------------------

  /** commit()'s i-th disk write for the list `lh` and cached contents `view`: write_log,
      write_head, install_trans, write_head with n == 0. */
  ghost function CommitWrite(L: Layout, hd: Block, lh: seq<int>, view: seq<Block>, i: nat): Write
    requires ListOk(L, |view|, lh) && L.Ok(|view|) && i <= 2 * |lh| + 1
  {
    var n := |lh|;
    if i < n then Write(L.Slot(i), view[lh[i]])
    else if i == n then Write(L.start, PutHead(hd, lh))
    else if i <= 2 * n then Write(lh[i - n - 1], view[lh[i - n - 1]])
    else Write(L.start, PutHead(PutHead(hd, lh), []))
  }

  ghost function CommitWrites(L: Layout, hd: Block, lh: seq<int>, view: seq<Block>): (ws: seq<Write>)
    requires ListOk(L, |view|, lh) && L.Ok(|view|)
    ensures InRange(ws, |view|)
  {
    if lh == [] then []
    else seq(2 * |lh| + 2, i requires 0 <= i <= 2 * |lh| + 1 => CommitWrite(L, hd, lh, view, i))
  }

  /** `e` is `d` after the first k commit writes. */
  ghost predicate CommittedUpTo(L: Layout, d: seq<Block>, lh: seq<int>, view: seq<Block>, e: seq<Block>, k: nat)
    requires |view| == |d| && ListOk(L, |d|, lh) && L.Ok(|d|)
  {
    var n := |lh|;
    && |e| == |d|
    && (forall i :: 0 <= i < n ==> e[L.Slot(i)] == if i < k then view[lh[i]] else d[L.Slot(i)])
    && (forall i :: 0 <= i < n ==> e[lh[i]] == if n + 1 + i < k then view[lh[i]] else d[lh[i]])
    && (forall a :: 0 <= a < |d| && L.Home(a) && a !in lh ==> e[a] == d[a])
    && e[L.start] == (if k <= n then d[L.start]
                      else if k <= 2 * n + 1 then PutHead(d[L.start], lh)
                      else PutHead(PutHead(d[L.start], lh), []))
  }

  lemma CommitStep(L: Layout, d: seq<Block>, lh: seq<int>, view: seq<Block>, e: seq<Block>, k: nat)
    requires |view| == |d| && ListOk(L, |d|, lh) && L.Ok(|d|) && k <= 2 * |lh| + 1
    requires CommittedUpTo(L, d, lh, view, e, k)
    ensures var w := CommitWrite(L, d[L.start], lh, view, k);
            CommittedUpTo(L, d, lh, view, e[w.at := w.data], k + 1)
  {
    var n := |lh|;
    var w := CommitWrite(L, d[L.start], lh, view, k);
    var e' := e[w.at := w.data];
    forall i | 0 <= i < n ensures e'[L.Slot(i)] == if i < k + 1 then view[lh[i]] else d[L.Slot(i)] {
      assert L.Home(lh[i]) && (n < k <= 2 * n ==> L.Home(lh[k - n - 1]));
    }
    forall i | 0 <= i < n ensures e'[lh[i]] == if n + 1 + i < k + 1 then view[lh[i]] else d[lh[i]] {
      CommitStepHome(L, lh, k, i);
    }
    forall a | 0 <= a < |d| && L.Home(a) && a !in lh ensures e'[a] == d[a] {
      assert n < k <= 2 * n ==> lh[k - n - 1] in lh;
    }
  }

  /** Which write touches the home of the i-th listed block. */
  lemma CommitStepHome(L: Layout, lh: seq<int>, k: nat, i: nat)
    requires Distinct(lh) && i < |lh| && (forall j :: 0 <= j < |lh| ==> L.Home(lh[j])) && 1 <= L.size
             && |lh| <= L.size - 1
    ensures L.Home(lh[i]) && lh[i] != L.start && (k < |lh| ==> lh[i] != L.Slot(k))
    ensures |lh| < k <= 2 * |lh| ==> (lh[k - |lh| - 1] == lh[i] <==> k - |lh| - 1 == i)
  {
  }

  /** The disk after the first k commit writes. */
  ghost function AfterCommit(L: Layout, d: seq<Block>, lh: seq<int>, view: seq<Block>, k: nat): (e: seq<Block>)
    requires |view| == |d| && ListOk(L, |d|, lh) && L.Ok(|d|) && k <= |CommitWrites(L, d[L.start], lh, view)|
    ensures |e| == |d|
  {
    Apply(d, CommitWrites(L, d[L.start], lh, view)[..k])
  }

  lemma AfterCommitNext(L: Layout, d: seq<Block>, lh: seq<int>, view: seq<Block>, k: nat)
    requires |view| == |d| && ListOk(L, |d|, lh) && L.Ok(|d|) && lh != [] && k <= 2 * |lh| + 1
    ensures var w := CommitWrite(L, d[L.start], lh, view, k);
            AfterCommit(L, d, lh, view, k + 1) == AfterCommit(L, d, lh, view, k)[w.at := w.data]
  {
    PrefixApply(d, CommitWrites(L, d[L.start], lh, view), k);
  }

  lemma {:induction false} CommitPrefix(L: Layout, d: seq<Block>, lh: seq<int>, view: seq<Block>, k: nat)
    requires |view| == |d| && ListOk(L, |d|, lh) && L.Ok(|d|) && lh != []
    requires k <= 2 * |lh| + 2
    ensures CommittedUpTo(L, d, lh, view, AfterCommit(L, d, lh, view, k), k)
  {
    if k == 0 {
      assert CommitWrites(L, d[L.start], lh, view)[..0] == [];
    } else {
      CommitPrefix(L, d, lh, view, k - 1);
      AfterCommitNext(L, d, lh, view, k - 1);
      CommitStep(L, d, lh, view, AfterCommit(L, d, lh, view, k - 1), k - 1);
    }
  }

  /** Crash atomicity of commit: after any number k of commit's writes the disk recovers to
      the home blocks as before the transaction (k <= n, header not yet written) or to the
      home blocks as the cache holds them (k > n).  Nothing in between is ever recovered. */
  lemma CommitCrash(L: Layout, d: seq<Block>, lh: seq<int>, view: seq<Block>, k: nat)
    requires DiskOk(L, d) && LogEmpty(L, d) && |view| == |d| && ListOk(L, |d|, lh)
    requires forall a :: 0 <= a < |d| && L.Home(a) && a !in lh ==> view[a] == d[a]
    requires k <= |CommitWrites(L, d[L.start], lh, view)|
    ensures InRange(CommitWrites(L, d[L.start], lh, view)[..k], |d|)
    ensures var e := Apply(d, CommitWrites(L, d[L.start], lh, view)[..k]);
            && DiskOk(L, e)
            && Durable(L, e) == (if k <= |lh| then HomeBlocks(L, d) else HomeBlocks(L, view))
            && (k == |CommitWrites(L, d[L.start], lh, view)| ==>
                  LogEmpty(L, e) && HomeBlocks(L, e) == HomeBlocks(L, view))
  {
    var n := |lh|;
    if lh == [] {
      assert CommitWrites(L, d[L.start], lh, view)[..k] == [];
      EmptyDurable(L, d);
    } else {
      CommitPrefix(L, d, lh, view, k);
      var e := Apply(d, CommitWrites(L, d[L.start], lh, view)[..k]);
      HeadRoundTrip(d[L.start], lh);
      HeadRoundTrip(PutHead(d[L.start], lh), []);
      if k <= n || k == 2 * n + 2 {
        EmptyDurable(L, e);
      } else {
        RecoveredContents(L, e);
      }
      CommitHome(L, d, lh, view, e, k);
    }
  }

  /** The home blocks that the prefixes of CommitCrash recover to, block by block. */
  lemma CommitHome(L: Layout, d: seq<Block>, lh: seq<int>, view: seq<Block>, e: seq<Block>, k: nat)
    requires DiskOk(L, d) && LogEmpty(L, d) && |view| == |d| && ListOk(L, |d|, lh) && lh != []
    requires forall a :: 0 <= a < |d| && L.Home(a) && a !in lh ==> view[a] == d[a]
    requires k <= 2 * |lh| + 2 && CommittedUpTo(L, d, lh, view, e, k) && DiskOk(L, e)
    ensures Durable(L, e) == (if k <= |lh| then HomeBlocks(L, d) else HomeBlocks(L, view))
    ensures k == 2 * |lh| + 2 ==> HomeBlocks(L, e) == HomeBlocks(L, view)
  {
    forall a: nat | a < |d| && L.Home(a)
      ensures Recovered(L, e)[a] == if k <= |lh| then d[a] else view[a]
      ensures k == 2 * |lh| + 2 ==> e[a] == view[a]
    {
      CommitHomeAt(L, d, lh, view, e, k, a);
    }
  }

  lemma CommitHomeAt(L: Layout, d: seq<Block>, lh: seq<int>, view: seq<Block>, e: seq<Block>, k: nat, a: nat)
    requires DiskOk(L, d) && LogEmpty(L, d) && |view| == |d| && ListOk(L, |d|, lh) && lh != []
    requires k <= 2 * |lh| + 2 && CommittedUpTo(L, d, lh, view, e, k) && DiskOk(L, e)
    requires a < |d| && L.Home(a) && (a !in lh ==> view[a] == d[a])
    ensures Recovered(L, e)[a] == if k <= |lh| then d[a] else view[a]
    ensures k == 2 * |lh| + 2 ==> e[a] == view[a]
  {
    RecoveredContents(L, e);
    HeadRoundTrip(d[L.start], lh);
    if a in lh {
      var i :| 0 <= i < |lh| && lh[i] == a;
    }
  }

  // ---- The same writes, loop by loop ----------------------------------------------------

  /** write_log: each listed block into its slot. */
  ghost function SlotWrites(L: Layout, lh: seq<int>, view: seq<Block>): (ws: seq<Write>)
    requires ListOk(L, |view|, lh) && L.Ok(|view|)
  {
    seq(|lh|, i requires 0 <= i < |lh| => Write(L.Slot(i), view[lh[i]]))
  }

  /** install_trans: each slot to the listed block. */
  ghost function HomeWrites(L: Layout, lh: seq<int>, view: seq<Block>): (ws: seq<Write>)
    requires ListOk(L, |view|, lh) && L.Ok(|view|)
  {
    seq(|lh|, i requires 0 <= i < |lh| => Write(lh[i], view[L.Slot(i)]))
  }

  lemma CommitInOrder(L: Layout, hd: Block, lh: seq<int>, view: seq<Block>, logged: seq<Block>)
    requires ListOk(L, |view|, lh) && L.Ok(|view|) && lh != [] && |logged| == |view|
    requires forall i :: 0 <= i < |lh| ==> logged[L.Slot(i)] == view[lh[i]]
    ensures CommitWrites(L, hd, lh, view)
         == SlotWrites(L, lh, view) + [Write(L.start, PutHead(hd, lh))]
            + HomeWrites(L, lh, logged) + [Write(L.start, PutHead(PutHead(hd, lh), []))]
  {
  }

  lemma RecoverInOrder(L: Layout, d: seq<Block>)
    requires DiskOk(L, d)
    ensures RecoverWrites(L, d) == HomeWrites(L, Listed(d[L.start]), d) + [Write(L.start, PutHead(d[L.start], []))]
  {
  }
}
