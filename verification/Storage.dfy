/**
 The disk as the kernel sees it: numbered blocks, written one whole block at a time.
 A computation's effect on the disk is the list of block writes it issues, and a crash
 keeps some prefix of that list.
 */
module Storage {

  /** BSIZE / sizeof(uint): a block is read and written as 128 machine words. */
  const WORDS: nat := 128

  type Block = b: seq<int> | |b| == WORDS witness seq(WORDS, _ => 0)

  type Disk = seq<Block>

  datatype Write = Write(bn: nat, data: Block)

  /** Every write addresses a block of a disk with total blocks. */
  ghost predicate InRange(ws: seq<Write>, total: nat) {
    forall i | 0 <= i < |ws| :: ws[i].bn < total
  }

  /** The disk after the writes have been performed in order. */
  function Apply(d: Disk, ws: seq<Write>): (r: Disk)
    requires InRange(ws, |d|)
    ensures |r| == |d|
  {
    if ws == [] then d
    else
      var w := ws[|ws| - 1];
      Apply(d, ws[..|ws| - 1])[w.bn := w.data]
  }

  /** The writes touch block bn. */
  ghost predicate Touches(ws: seq<Write>, bn: nat) {
    exists i | 0 <= i < |ws| :: ws[i].bn == bn
  }

  /** What block bn holds after the writes, if it held v before. */
  function ValueAt(v: Block, ws: seq<Write>, bn: nat): Block {
    if ws == [] then v
    else if ws[|ws| - 1].bn == bn then ws[|ws| - 1].data
    else ValueAt(v, ws[..|ws| - 1], bn)
  }

  lemma {:induction false} ApplyAt(d: Disk, ws: seq<Write>, bn: nat)
    requires InRange(ws, |d|) && bn < |d|
    ensures Apply(d, ws)[bn] == ValueAt(d[bn], ws, bn)
  {
    if ws != [] {
      ApplyAt(d, ws[..|ws| - 1], bn);
    }
  }

  lemma {:induction false} ApplyConcat(d: Disk, a: seq<Write>, b: seq<Write>)
    requires InRange(a, |d|) && InRange(b, |d|)
    ensures InRange(a + b, |d|)
    ensures Apply(d, a + b) == Apply(Apply(d, a), b)
  {
    if b == [] {
      assert a + b == a;
    } else {
      ApplyConcat(d, a, b[..|b| - 1]);
      assert (a + b)[..|a + b| - 1] == a + b[..|b| - 1];
    }
  }

  lemma {:induction false} ValueAtConcat(v: Block, a: seq<Write>, b: seq<Write>, bn: nat)
    ensures ValueAt(v, a + b, bn) == ValueAt(ValueAt(v, a, bn), b, bn)
  {
    if b == [] {
      assert a + b == a;
    } else {
      ValueAtConcat(v, a, b[..|b| - 1], bn);
      assert (a + b)[..|a + b| - 1] == a + b[..|b| - 1];
    }
  }

  /** A block that is not written keeps its contents. */
  lemma {:induction false} ValueAtUntouched(v: Block, ws: seq<Write>, bn: nat)
    requires !Touches(ws, bn)
    ensures ValueAt(v, ws, bn) == v
  {
    if ws != [] {
      var front := ws[..|ws| - 1];
      assert ws[|ws| - 1].bn != bn;
      forall i | 0 <= i < |front| ensures front[i].bn != bn {
        assert front[i] == ws[i];
      }
      ValueAtUntouched(v, front, bn);
    }
  }

  /** A block that is written ends up the same whatever it held before. */
  lemma {:induction false} ValueAtTouched(v: Block, v': Block, ws: seq<Write>, bn: nat)
    requires Touches(ws, bn)
    ensures ValueAt(v, ws, bn) == ValueAt(v', ws, bn)
  {
    if ws[|ws| - 1].bn != bn {
      var i :| 0 <= i < |ws| && ws[i].bn == bn;
      assert ws[..|ws| - 1][i].bn == bn;
      ValueAtTouched(v, v', ws[..|ws| - 1], bn);
    }
  }

  /** When each block has one value that all its writes carry, that value is what it holds. */
  lemma {:induction false} ValueAtConsistent(v: Block, ws: seq<Write>, bn: nat, value: Block)
    requires Touches(ws, bn)
    requires forall i | 0 <= i < |ws| :: ws[i].bn == bn ==> ws[i].data == value
    ensures ValueAt(v, ws, bn) == value
  {
    var front := ws[..|ws| - 1];
    if ws[|ws| - 1].bn != bn {
      var i :| 0 <= i < |ws| && ws[i].bn == bn;
      assert front[i].bn == bn;
      forall j | 0 <= j < |front| && front[j].bn == bn ensures front[j].data == value {
        assert front[j] == ws[j];
      }
      ValueAtConsistent(v, front, bn, value);
    }
  }
}
