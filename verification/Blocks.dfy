/** Disk blocks, single-block writes, and the effect of a list of writes.

A block is its 256 little 32-bit words (BSIZE is 1024 bytes); the disk is a sequence of
blocks.  A write replaces one whole block, and a crash can fall between any two writes. */
module Blocks {
  const WORDS := 256

  type Block = s: seq<int> | |s| == WORDS witness seq(WORDS, i => 0)

  datatype Write = Write(at: nat, data: Block)

  ghost predicate InRange(ws: seq<Write>, size: nat) {
    forall i :: 0 <= i < |ws| ==> ws[i].at < size
  }

  /** The disk after the writes `ws`, performed in order on `d`. */
  ghost function Apply(d: seq<Block>, ws: seq<Write>): (r: seq<Block>)
    requires InRange(ws, |d|)
    ensures |r| == |d|
  {
    if ws == [] then d
    else
      var last := |ws| - 1;
      Apply(d, ws[..last])[ws[last].at := ws[last].data]
  }

  lemma ApplySnoc(d: seq<Block>, ws: seq<Write>, w: Write)
    requires InRange(ws, |d|) && w.at < |d|
    ensures InRange(ws + [w], |d|)
    ensures Apply(d, ws + [w]) == Apply(d, ws)[w.at := w.data]
  {
    assert (ws + [w])[..|ws|] == ws;
  }

  lemma {:induction false} ApplyConcat(d: seq<Block>, a: seq<Write>, b: seq<Write>)
    requires InRange(a, |d|) && InRange(b, |d|)
    ensures InRange(a + b, |d|)
    ensures Apply(d, a + b) == Apply(Apply(d, a), b)
    decreases |b|
  {
    if b == [] {
      assert a + b == a;
    } else {
      var last := |b| - 1;
      ApplyConcat(d, a, b[..last]);
      assert a + b == (a + b[..last]) + [b[last]];
      ApplySnoc(d, a + b[..last], b[last]);
    }
  }

  /** One more write of a list. */
  lemma PrefixApply(d: seq<Block>, ws: seq<Write>, k: nat)
    requires InRange(ws, |d|) && k < |ws|
    ensures InRange(ws[..k], |d|) && InRange(ws[..k + 1], |d|)
    ensures Apply(d, ws[..k + 1]) == Apply(d, ws[..k])[ws[k].at := ws[k].data]
  {
    assert ws[..k + 1] == ws[..k] + [ws[k]];
    ApplySnoc(d, ws[..k], ws[k]);
  }
}
