/** How many blocks a file needs for a range of bytes, and that it gets them exactly when there are so many free. */
module FileRoom {
  import opened Bytes
  import opened Common
  import opened Inodes
  import opened FileSpec

  ghost function FreeBlocks(l: Layout, bitmap: seq<bv8>): set<nat>
    requires l.size <= 8 * |bitmap|
  {
    set b: nat | b < l.size && !Bit(bitmap, b)
  }

  /** The empty slots in the way of bytes from..end-1 of file inum. */
  ghost function EmptySlots(l: Layout, f: FS, inum: nat, from: nat, end: nat): set<nat>
    requires Shape(l, f) && inum in f.inodes
  {
    set t: nat | t < NSLOTS && Touched(t, from, end) && Addr(l, f, inum, t) == 0
  }

  /** There are free blocks for all of them. */
  ghost predicate Roomy(l: Layout, f: FS, inum: nat, from: nat, end: nat)
    requires Shape(l, f) && inum in f.inodes
  {
    |EmptySlots(l, f, inum, from, end)| <= |FreeBlocks(l, f.bitmap)|
  }

  /** A block that a slot has gained was free before. */
  lemma GainedWasFree(l: Layout, f: FS, f': FS, inum: nat, from: nat, end: nat, t: nat)
    requires Owned(l, f) && Owned(l, f') && inum in f.inodes && inum in f'.inodes && t < NSLOTS
    requires f'.inodes.Keys == f.inodes.Keys
    requires forall j, t | j in f.inodes && 0 <= t < NSLOTS ::
               Addr(l, f', j, t) == Addr(l, f, j, t) || (j == inum && Addr(l, f, j, t) == 0 && Touched(t, from, end))
    requires Addr(l, f, inum, t) == 0 && Addr(l, f', inum, t) != 0
    ensures l.nmeta <= Addr(l, f', inum, t) < l.size && !Bit(f.bitmap, Addr(l, f', inum, t))
  {
    hide Touched, Addr, Bit;
    var a := Addr(l, f', inum, t);
    assert a in f'.owner && f'.owner[a] == Slot(inum, t);
    assert a !in f.owner;
  }

  lemma {:induction false} ValuesSize(g: map<nat, nat>)
    requires forall t, u | t in g && u in g && t != u :: g[t] != g[u]
    ensures |g.Values| == |g.Keys|
    decreases |g|
  {
    if g.Keys == {} {
      assert g.Values == {};
    } else {
      var t :| t in g;
      var h := g - {t};
      assert h.Keys == g.Keys - {t};
      ValuesSize(h);
      forall v ensures v in g.Values <==> v in h.Values + {g[t]} {
        if v in g.Values && v != g[t] {
          var u :| u in g && g[u] == v;
          assert h[u] == v;
        }
        if v in h.Values {
          var u :| u in h && h[u] == v;
          assert g[u] == v;
        }
        assert g[t] in g.Values;
      }
      assert g.Values == h.Values + {g[t]};
      assert g[t] !in h.Values;
    }
  }

  /** f' differs from f only in empty slots in the way that have been filled. */
  ghost predicate FillsOnly(l: Layout, f: FS, f': FS, inum: nat, from: nat, end: nat) {
    && Owned(l, f) && Owned(l, f') && inum in f.inodes && f'.inodes.Keys == f.inodes.Keys
    && (forall j, t | j in f.inodes && 0 <= t < NSLOTS ::
          Addr(l, f', j, t) == Addr(l, f, j, t) || (j == inum && Addr(l, f, j, t) == 0 && Touched(t, from, end)))
  }

  /** The slots that have been filled, with their blocks. */
  ghost function Fillings(l: Layout, f: FS, f': FS, inum: nat, from: nat, end: nat): map<nat, nat>
    requires FillsOnly(l, f, f', inum, from, end)
  {
    map t | t in EmptySlots(l, f, inum, from, end) && Addr(l, f', inum, t) != 0 :: Addr(l, f', inum, t)
  }

  /** They are as many as the blocks they have taken, which were free. */
  lemma FillingsSize(l: Layout, f: FS, f': FS, inum: nat, from: nat, end: nat)
    requires FillsOnly(l, f, f', inum, from, end)
    ensures var g := Fillings(l, f, f', inum, from, end);
            |g.Values| == |g.Keys| && g.Values <= FreeBlocks(l, f.bitmap)
  {
    hide Addr, Bit, Touched;
    var g := Fillings(l, f, f', inum, from, end);
    forall t, u | t in g && u in g && t != u ensures g[t] != g[u] {
      assert f'.owner[g[t]] == Slot(inum, t) && f'.owner[g[u]] == Slot(inum, u);
    }
    ValuesSize(g);
    forall a | a in g.Values ensures a in FreeBlocks(l, f.bitmap) {
      var t :| t in g && g[t] == a;
      GainedWasFree(l, f, f', inum, from, end, t);
    }
  }

  /** If everything in the way has been filled, there was room. */
  lemma FilledHadRoom(l: Layout, f: FS, f': FS, inum: nat, from: nat, end: nat)
    requires Owned(l, f) && Owned(l, f') && FilledRange(l, f, f', inum, from, end)
    ensures Shape(l, f) && Roomy(l, f, inum, from, end)
  {
    hide Owned, Addr, Touched, FreeBlocks;
    OwnedShape(l, f);
    OwnedShape(l, f');
    FillingsSize(l, f, f', inum, from, end);
    var g := Fillings(l, f, f', inum, from, end);
    assert g.Keys == EmptySlots(l, f, inum, from, end);
    SubsetSize(g.Values, FreeBlocks(l, f.bitmap));
  }

  lemma FreeWasTaken(l: Layout, f: FS, f': FS, inum: nat, from: nat, end: nat, b: nat)
    requires UsedUp(l, f, f', inum, from, end) && Shape(l, f) && b in FreeBlocks(l, f.bitmap)
    ensures FillsOnly(l, f, f', inum, from, end) && b in Fillings(l, f, f', inum, from, end).Values
  {
    hide Addr, Bit, Touched;
    assert b in f'.owner && b !in f.owner;
    var q := f'.owner[b];
    assert Addr(l, f', q.inum, q.s) == b;
    assert q.inum == inum && q.s in Fillings(l, f, f', inum, from, end);
  }

  /** If it ran out of blocks, there was not. */
  lemma OutHadNone(l: Layout, f: FS, f': FS, inum: nat, from: nat, end: nat)
    requires OutOfBlocks(l, f, f', inum, from, end)
    ensures Shape(l, f) && inum in f.inodes && !Roomy(l, f, inum, from, end)
  {
    hide Owned, Addr, Touched, FreeBlocks, Full;
    OwnedShape(l, f);
    OwnedShape(l, f');
    FillingsSize(l, f, f', inum, from, end);
    var g := Fillings(l, f, f', inum, from, end);
    forall b | b in FreeBlocks(l, f.bitmap) ensures b in g.Values {
      FreeWasTaken(l, f, f', inum, from, end, b);
    }
    assert g.Values == FreeBlocks(l, f.bitmap);
    var t: nat :| t < NSLOTS && Touched(t, from, end) && Addr(l, f', inum, t) == 0;
    assert t in EmptySlots(l, f, inum, from, end) && t !in g.Keys;
    SubsetSize(g.Keys, EmptySlots(l, f, inum, from, end));
  }

  lemma WrittenHadRoom(l: Layout, f: FS, f': FS, inum: nat, off: nat, src: seq<Byte>,
                       was: set<nat>, logged: set<nat>, data: set<nat>, bitmaps: set<nat>)
    requires WriteLoop(l, f, f', inum, off, src, |src|, was, logged, data, bitmaps)
    ensures Shape(l, f) && inum in f.inodes && Roomy(l, f, inum, off, off + |src|)
  {
    hide Owned, Roomy, Cost, Written, SameMeta, FilledRange;
    assert inum in f.inodes by { InRange(l, f, f', inum, off, off + |src|); }
    FilledHadRoom(l, f, f', inum, off, off + |src|);
  }

  lemma InRange(l: Layout, f: FS, f': FS, inum: nat, from: nat, end: nat)
    requires Owned(l, f) && Owned(l, f') && FilledRange(l, f, f', inum, from, end)
    ensures inum in f.inodes
  {
  }

  // ---- several writes one after the other ----

  lemma TouchedTwice(t: nat, off: nat, i: nat, n: nat)
    requires t < NSLOTS
    ensures Touched(t, off, off + i + n) <==> Touched(t, off, off + i) || Touched(t, off + i, off + i + n)
  {
  }

  lemma RangesJoin(l: Layout, f: FS, g: FS, h: FS, inum: nat, off: nat, i: nat, n: nat)
    requires Owned(l, f) && Owned(l, g) && Owned(l, h)
    requires FilledRange(l, f, g, inum, off, off + i) && FilledRange(l, g, h, inum, off + i, off + i + n)
    ensures FilledRange(l, f, h, inum, off, off + i + n)
  {
    hide Owned, Addr, Touched;
    OwnedShape(l, f);
    OwnedShape(l, g);
    OwnedShape(l, h);
    forall j, t | j in f.inodes && 0 <= t < NSLOTS
      ensures Addr(l, h, j, t) == Addr(l, f, j, t) || (j == inum && Addr(l, f, j, t) == 0 && Touched(t, off, off + i + n))
    {
      TouchedTwice(t, off, i, n);
    }
    forall t | 0 <= t < NSLOTS && Touched(t, off, off + i + n) ensures Addr(l, h, inum, t) != 0 {
      TouchedTwice(t, off, i, n);
    }
  }

  lemma OutLater(l: Layout, f: FS, g: FS, h: FS, inum: nat, off: nat, i: nat, n: nat, end: nat)
    requires Owned(l, f) && Owned(l, g) && FilledRange(l, f, g, inum, off, off + i)
    requires OutOfBlocks(l, g, h, inum, off + i, off + i + n) && off + i + n <= end
    ensures OutOfBlocks(l, f, h, inum, off, end)
  {
    hide Owned, Addr, Touched, Full;
    OwnedShape(l, f);
    OwnedShape(l, g);
    OwnedShape(l, h);
    forall t: nat | t < NSLOTS && (Touched(t, off, off + i) || Touched(t, off + i, off + i + n)) ensures Touched(t, off, end) {
      TouchedTwice(t, off, i, n);
      TouchedMore(t, off, off + i + n, end);
    }
  }

  lemma OutSooner(l: Layout, f: FS, f': FS, inum: nat, off: nat, end: nat, end': nat)
    requires OutOfBlocks(l, f, f', inum, off, end) && end <= end'
    ensures OutOfBlocks(l, f, f', inum, off, end')
  {
    hide Owned, Addr, Touched, Full;
    OwnedShape(l, f);
    OwnedShape(l, f');
    forall t: nat | Touched(t, off, end) ensures Touched(t, off, end') {
      TouchedMore(t, off, end, end');
    }
  }
}
