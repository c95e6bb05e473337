/** What reading and writing a stretch of a file means, one block at a time. */
module FileSpec {
  import opened Bytes
  import opened Common
  import opened Inodes

  /** Only block addresses may differ between the two sets of inodes. */
  ghost predicate SameMeta(f: FS, f': FS) {
    && f'.inodes.Keys == f.inodes.Keys
    && forall i | i in f.inodes :: f'.inodes[i] == f.inodes[i].(addrs := f'.inodes[i].addrs)
  }

  /** Only empty slots on the way to block bn of inode inum have been filled. */
  ghost predicate Grows(l: Layout, f: FS, f': FS, inum: nat, bn: nat)
    requires Owned(l, f) && Owned(l, f')
  {
    && f'.inodes.Keys == f.inodes.Keys
    && forall j, t | j in f.inodes && 0 <= t < NSLOTS ::
         Addr(l, f', j, t) == Addr(l, f, j, t)
         || (j == inum && Addr(l, f, j, t) == 0 && (t == DataSlot(bn) || (t == NDIRECT && bn >= NDIRECT)))
  }

  /** What bmap achieves: no file changes, only missing slots are filled, and block bn has an address. */
  ghost predicate Mapped(l: Layout, f: FS, f': FS, inum: nat, bn: nat, addr: nat) {
    && Owned(l, f) && Owned(l, f') && inum in f.inodes && inum in f'.inodes && bn < MAXFILE
    && SameFiles(l, f, f') && SameMeta(f, f') && Grows(l, f, f', inum, bn)
    && Addr(l, f', inum, DataSlot(bn)) == addr
    && addr != 0
    && (bn >= NDIRECT ==> f'.inodes[inum].addrs[NDIRECT] != 0)
  }

  ghost predicate Full(l: Layout, bitmap: seq<bv8>)
    requires l.size <= 8 * |bitmap|
  {
    forall b | 0 <= b < l.size :: Bit(bitmap, b)
  }

  /** bmap has run out of blocks with block bn still missing. */
  ghost predicate Stuck(l: Layout, f: FS, f': FS, inum: nat, bn: nat) {
    && Owned(l, f) && Owned(l, f') && inum in f.inodes && inum in f'.inodes && bn < MAXFILE
    && Grows(l, f, f', inum, bn) && Full(l, f'.bitmap) && Addr(l, f', inum, DataSlot(bn)) == 0
  }

  /** How many slots bmap has to fill for block bn. */
  ghost function Fills(l: Layout, f: FS, inum: nat, bn: nat): nat
    requires Owned(l, f) && inum in f.inodes && bn < MAXFILE
  {
    (if Addr(l, f, inum, DataSlot(bn)) == 0 then 1 else 0)
    + (if bn >= NDIRECT && f.inodes[inum].addrs[NDIRECT] == 0 then 1 else 0)
  }

  lemma OwnedShape(l: Layout, f: FS)
    requires Owned(l, f)
    ensures Shape(l, f)
  {
  }

  lemma FillGrows(l: Layout, f: FS, inum: nat, s: nat, b: nat)
    requires CanFill(l, f, inum, s, b)
    ensures s > NDIRECT ==> f.inodes[inum].addrs[NDIRECT] != b
    ensures var f' := WithSlot(l, f, inum, s, b);
            && b != 0
            && Owned(l, f') && SameFiles(l, f, f') && SameMeta(f, f')
            && Addr(l, f', inum, s) == b
            && forall j, t | j in f.inodes && 0 <= t < NSLOTS && Slot(j, t) != Slot(inum, s) :: Addr(l, f', j, t) == Addr(l, f, j, t)
  {
    FillKeepsFiles(l, f, inum, s, b);
    FreeBlockUnowned(l, f, b, inum, s);
    var f' := WithSlot(l, f, inum, s, b);
    FillAddr(l, f, inum, s, b, inum, s);
    forall j, t | j in f.inodes && 0 <= t < NSLOTS && Slot(j, t) != Slot(inum, s)
      ensures Addr(l, f', j, t) == Addr(l, f, j, t)
    {
      FillAddr(l, f, inum, s, b, j, t);
    }
  }

  lemma MapsNone(l: Layout, f: FS, inum: nat, bn: nat)
    requires Owned(l, f) && inum in f.inodes && bn < MAXFILE && Addr(l, f, inum, DataSlot(bn)) != 0
    ensures Mapped(l, f, f, inum, bn, Addr(l, f, inum, DataSlot(bn)))
  {
  }

  lemma MapsOne(l: Layout, f: FS, inum: nat, bn: nat, b: nat)
    requires bn < MAXFILE && CanFill(l, f, inum, DataSlot(bn), b)
    ensures bn >= NDIRECT ==> f.inodes[inum].addrs[NDIRECT] != b
    ensures Mapped(l, f, WithSlot(l, f, inum, DataSlot(bn), b), inum, bn, b)
    ensures bn >= NDIRECT ==> WithSlot(l, f, inum, DataSlot(bn), b).inodes == f.inodes
  {
    FillGrows(l, f, inum, DataSlot(bn), b);
  }

  /** A new indirect block has no entries. */
  lemma MapsIndirect(l: Layout, f: FS, inum: nat, bn: nat, b: nat)
    requires NDIRECT <= bn < MAXFILE && CanFill(l, f, inum, NDIRECT, b)
    ensures var f' := WithSlot(l, f, inum, NDIRECT, b);
            && Owned(l, f') && inum in f'.inodes
            && SameFiles(l, f, f') && SameMeta(f, f') && Grows(l, f, f', inum, bn)
            && f'.inodes[inum].addrs[NDIRECT] == b && b != 0
            && Addr(l, f', inum, DataSlot(bn)) == 0 && Addr(l, f, inum, DataSlot(bn)) == 0
  {
    FillGrows(l, f, inum, NDIRECT, b);
  }

  lemma MapsBoth(l: Layout, f: FS, g: FS, h: FS, inum: nat, bn: nat, b: nat)
    requires Owned(l, f) && inum in f.inodes && NDIRECT <= bn
    requires Owned(l, g) && SameFiles(l, f, g) && SameMeta(f, g) && Grows(l, f, g, inum, bn)
    requires Mapped(l, g, h, inum, bn, b)
    ensures Mapped(l, f, h, inum, bn, b)
  {
  }

  // ---- a stretch of bytes ----

  function Min(a: nat, b: nat): nat { if a < b then a else b }

  /** A block with bytes laid over it from position at. */
  function Patched(blk: seq<Byte>, at: nat, bytes: seq<Byte>): (r: seq<Byte>)
    requires at + |bytes| <= |blk|
    ensures |r| == |blk|
    ensures forall k | 0 <= k < |blk| :: r[k] == if at <= k < at + |bytes| then bytes[k - at] else blk[k]
  {
    blk[..at] + bytes + blk[at + |bytes|..]
  }

  /** src laid over c from position off, which is not beyond its end. */
  function Splice(c: seq<Byte>, off: nat, src: seq<Byte>): (r: seq<Byte>)
    requires off <= |c|
    ensures off + |src| <= |c| ==> |r| == |c|
    ensures off + |src| > |c| ==> |r| == off + |src|
  {
    c[..off] + src + if off + |src| < |c| then c[off + |src|..] else []
  }

  /** File inum's bytes from off on are the first tot bytes of src; every other byte of every file is as before. */
  ghost predicate Written(l: Layout, f: FS, f': FS, inum: nat, off: nat, src: seq<Byte>, tot: nat)
    requires Owned(l, f) && Owned(l, f') && tot <= |src|
  {
    && f'.inodes.Keys == f.inodes.Keys
    && forall j, k | j in f.inodes && 0 <= k < MAXFILE * BSIZE ::
         ByteAt(l, f', j, k)
         == if j == inum && off <= k < off + tot then src[k - off] else ByteAt(l, f, j, k)
  }

  /** Slot t lies on the way to some block of the byte range [from, to). */
  predicate Touched(t: nat, from: nat, to: nat) {
    from < to &&
    if t < NDIRECT then from / BSIZE <= t <= (to - 1) / BSIZE
    else if t == NDIRECT then (to - 1) / BSIZE >= NDIRECT
    else from / BSIZE <= t - 1 <= (to - 1) / BSIZE
  }

  /** Exactly the touched slots have been filled where they were empty. */
  ghost predicate FilledRange(l: Layout, f: FS, f': FS, inum: nat, from: nat, to: nat)
    requires Owned(l, f) && Owned(l, f')
  {
    && inum in f.inodes && f'.inodes.Keys == f.inodes.Keys
    && (forall j, t | j in f.inodes && 0 <= t < NSLOTS ::
          Addr(l, f', j, t) == Addr(l, f, j, t) || (j == inum && Addr(l, f, j, t) == 0 && Touched(t, from, to)))
    && (forall t | 0 <= t < NSLOTS :: Touched(t, from, to) ==> Addr(l, f', inum, t) != 0)
  }

  ghost predicate WriteInv(l: Layout, f: FS, f': FS, inum: nat, off: nat, src: seq<Byte>, tot: nat)
  {
    && Owned(l, f) && Owned(l, f') && inum in f.inodes && tot <= |src|
    && SameMeta(f, f')
    && Written(l, f, f', inum, off, src, tot)
    && FilledRange(l, f, f', inum, off, off + tot)
  }

  /** The chunk that writei copies into block bn. */
  ghost function Chunk(off: nat, n: nat, tot: nat): nat {
    if tot < n then Min(n - tot, BSIZE - (off + tot) % BSIZE) else 0
  }

  /** The state after one trip round writei's loop, given the state that bmap left. */
  ghost function Stored(l: Layout, g: FS, addr: nat, off: nat, src: seq<Byte>, tot: nat): FS
    requires Shape(l, g) && addr < l.size && tot < |src|
  {
    var o := off + tot;
    var m := Chunk(off, |src|, tot);
    WithBlock(g, addr, Patched(g.blocks[addr], o % BSIZE, src[tot..tot + m]))
  }

  lemma MappedInRange(l: Layout, f: FS, g: FS, inum: nat, bn: nat, addr: nat)
    requires Mapped(l, f, g, inum, bn, addr)
    ensures addr < l.size && addr in g.owner && Shape(l, g)
  {
  }

  lemma StoredOwned(l: Layout, f: FS, g: FS, inum: nat, addr: nat, off: nat, src: seq<Byte>, tot: nat)
    requires tot < |src| && off + |src| <= MAXFILE * BSIZE
    requires Mapped(l, f, g, inum, (off + tot) / BSIZE, addr)
    ensures addr < l.size && Owned(l, Stored(l, g, addr, off, src, tot))
    ensures Stored(l, g, addr, off, src, tot).inodes == g.inodes
    ensures forall j, t | j in g.inodes && 0 <= t < NSLOTS ::
              Addr(l, Stored(l, g, addr, off, src, tot), j, t) == Addr(l, g, j, t)
  {
    MappedInRange(l, f, g, inum, (off + tot) / BSIZE, addr);
    var bn := (off + tot) / BSIZE;
    var data := Patched(g.blocks[addr], (off + tot) % BSIZE, src[tot..tot + Chunk(off, |src|, tot)]);
    StoreKeeps(l, g, inum, DataSlot(bn), data);
    forall j, t | j in g.inodes && 0 <= t < NSLOTS
      ensures Addr(l, Stored(l, g, addr, off, src, tot), j, t) == Addr(l, g, j, t)
    {
      StoreAddr(l, g, inum, DataSlot(bn), data, j, t);
    }
  }

  lemma StoredByte(l: Layout, f: FS, g: FS, inum: nat, addr: nat, off: nat, src: seq<Byte>, tot: nat, j: nat, k: nat)
    requires tot < |src| && off + |src| <= MAXFILE * BSIZE
    requires Mapped(l, f, g, inum, (off + tot) / BSIZE, addr)
    requires addr < l.size && Owned(l, Stored(l, g, addr, off, src, tot))
    requires j in g.inodes && k < MAXFILE * BSIZE
    ensures ByteAt(l, Stored(l, g, addr, off, src, tot), j, k)
            == if j == inum && off + tot <= k < off + tot + Chunk(off, |src|, tot) then src[k - off] else ByteAt(l, g, j, k)
  {
    hide Owned, SameFiles, SameMeta, Grows, Addr, ByteAt, Shape;
    OwnedShape(l, g);
    MappedBlock(l, f, g, inum, (off + tot) / BSIZE, addr);
    var o, m := off + tot, Chunk(off, |src|, tot);
    var data := Patched(g.blocks[addr], o % BSIZE, src[tot..tot + m]);
    StoreByte(l, g, inum, o / BSIZE, data, j, k);
    WithinBlock(o, m, k);
    if j == inum && k / BSIZE == o / BSIZE {
      ByteInBlock(l, g, j, k, addr);
    }
  }

  lemma MappedBlock(l: Layout, f: FS, g: FS, inum: nat, bn: nat, addr: nat)
    requires Mapped(l, f, g, inum, bn, addr)
    ensures addr < l.size && |g.blocks| == l.size && |g.blocks[addr]| == BSIZE
  {
    MappedInRange(l, f, g, inum, bn, addr);
  }

  lemma ByteInBlock(l: Layout, f: FS, inum: nat, k: nat, addr: nat)
    requires Owned(l, f) && inum in f.inodes && k < MAXFILE * BSIZE
    requires Addr(l, f, inum, DataSlot(k / BSIZE)) == addr && addr != 0
    ensures addr < l.size && |f.blocks[addr]| == BSIZE && ByteAt(l, f, inum, k) == f.blocks[addr][k % BSIZE]
  {
  }

  /** A chunk that does not cross a block boundary is a contiguous part of its block. */
  lemma WithinBlock(o: nat, m: nat, k: nat)
    requires o % BSIZE + m <= BSIZE
    ensures o <= k < o + m <==> k / BSIZE == o / BSIZE && o % BSIZE <= k % BSIZE < o % BSIZE + m
    ensures o <= k < o + m ==> k % BSIZE - o % BSIZE == k - o
  {
  }

  lemma WriteStepBytes(l: Layout, f: FS, f1: FS, g: FS, inum: nat, addr: nat, off: nat, src: seq<Byte>, tot: nat)
    requires WriteInv(l, f, f1, inum, off, src, tot) && tot < |src| && off + |src| <= MAXFILE * BSIZE
    requires Mapped(l, f1, g, inum, (off + tot) / BSIZE, addr)
    requires addr < l.size && Owned(l, Stored(l, g, addr, off, src, tot))
    ensures Written(l, f, Stored(l, g, addr, off, src, tot), inum, off, src, tot + Chunk(off, |src|, tot))
  {
    hide Owned, Stored, Addr, ByteAt, FilledRange, Grows, SameMeta;
    StoredOwned(l, f1, g, inum, addr, off, src, tot);
    OwnedShape(l, g);
    var h := Stored(l, g, addr, off, src, tot);
    var tot' := tot + Chunk(off, |src|, tot);
    forall j, k | j in f.inodes && 0 <= k < MAXFILE * BSIZE
      ensures ByteAt(l, h, j, k) == if j == inum && off <= k < off + tot' then src[k - off] else ByteAt(l, f, j, k)
    {
      StoredByte(l, f1, g, inum, addr, off, src, tot, j, k);
    }
  }

  lemma TouchedStep(t: nat, off: nat, tot: nat, n: nat)
    requires tot < n && t < NSLOTS
    requires tot == 0 || (off + tot) % BSIZE == 0
    ensures var to := off + tot + Chunk(off, n, tot);
            Touched(t, off, to) <==>
              Touched(t, off, off + tot) || t == DataSlot((off + tot) / BSIZE)
              || (t == NDIRECT && (off + tot) / BSIZE >= NDIRECT)
  {
    var o, m := off + tot, Chunk(off, n, tot);
    assert (o + m - 1) / BSIZE == o / BSIZE;
    assert tot > 0 ==> (o - 1) / BSIZE == o / BSIZE - 1;
  }

  lemma NothingFilled(l: Layout, f: FS, inum: nat, off: nat)
    requires Owned(l, f) && inum in f.inodes
    ensures FilledRange(l, f, f, inum, off, off)
  {
  }

  /** Mapping the next block fills exactly the slots that the bytes up to its end touch. */
  lemma RangeStep(l: Layout, f: FS, f1: FS, g: FS, inum: nat, addr: nat, off: nat, n: nat, tot: nat)
    requires Owned(l, f) && Owned(l, f1) && FilledRange(l, f, f1, inum, off, off + tot) && tot < n
    requires tot == 0 || (off + tot) % BSIZE == 0
    requires Mapped(l, f1, g, inum, (off + tot) / BSIZE, addr)
    ensures FilledRange(l, f, g, inum, off, off + tot + Chunk(off, n, tot))
  {
    hide Owned, Addr, SameFiles, SameMeta, Touched;
    OwnedShape(l, f);
    OwnedShape(l, f1);
    OwnedShape(l, g);
    AddrIndirect(l, g, inum);
    var to := off + tot + Chunk(off, n, tot);
    forall j, t | j in f.inodes && 0 <= t < NSLOTS
      ensures Addr(l, g, j, t) == Addr(l, f, j, t) || (j == inum && Addr(l, f, j, t) == 0 && Touched(t, off, to))
    {
      TouchedStep(t, off, tot, n);
    }
    forall t | 0 <= t < NSLOTS && Touched(t, off, to) ensures Addr(l, g, inum, t) != 0 {
      TouchedStep(t, off, tot, n);
    }
  }

  lemma SameRange(l: Layout, f: FS, g: FS, h: FS, inum: nat, from: nat, to: nat)
    requires Owned(l, f) && Owned(l, g) && Owned(l, h) && FilledRange(l, f, g, inum, from, to) && h.inodes.Keys == g.inodes.Keys
    requires forall j, t | j in g.inodes && 0 <= t < NSLOTS :: Addr(l, h, j, t) == Addr(l, g, j, t)
    ensures FilledRange(l, f, h, inum, from, to)
  {
    hide Addr, Touched;
  }

  lemma WriteStepSlots(l: Layout, f: FS, f1: FS, g: FS, inum: nat, addr: nat, off: nat, src: seq<Byte>, tot: nat)
    requires WriteInv(l, f, f1, inum, off, src, tot) && tot < |src| && off + |src| <= MAXFILE * BSIZE
    requires tot == 0 || (off + tot) % BSIZE == 0
    requires Mapped(l, f1, g, inum, (off + tot) / BSIZE, addr)
    requires addr < l.size && Owned(l, Stored(l, g, addr, off, src, tot))
    ensures FilledRange(l, f, Stored(l, g, addr, off, src, tot), inum, off, off + tot + Chunk(off, |src|, tot))
  {
    hide Owned, Stored, Addr, FilledRange, SameFiles, SameMeta, Written, Chunk;
    StoredOwned(l, f1, g, inum, addr, off, src, tot);
    OwnedShape(l, g);
    OwnedShape(l, Stored(l, g, addr, off, src, tot));
    RangeStep(l, f, f1, g, inum, addr, off, |src|, tot);
    SameRange(l, f, g, Stored(l, g, addr, off, src, tot), inum, off, off + tot + Chunk(off, |src|, tot));
  }

  lemma AddrIndirect(l: Layout, f: FS, i: nat)
    requires Shape(l, f) && i in f.inodes
    ensures Addr(l, f, i, NDIRECT) == f.inodes[i].addrs[NDIRECT]
  {
  }

  /** One trip round writei's loop. */
  lemma WriteStep(l: Layout, f: FS, f1: FS, g: FS, inum: nat, addr: nat, off: nat, src: seq<Byte>, tot: nat)
    requires WriteInv(l, f, f1, inum, off, src, tot) && tot < |src| && off + |src| <= MAXFILE * BSIZE
    requires tot == 0 || (off + tot) % BSIZE == 0
    requires Mapped(l, f1, g, inum, (off + tot) / BSIZE, addr)
    ensures addr < l.size
    ensures WriteInv(l, f, Stored(l, g, addr, off, src, tot), inum, off, src, tot + Chunk(off, |src|, tot))
  {
    hide Owned, Stored, Addr, ByteAt, Written, FilledRange, Grows;
    StoredOwned(l, f1, g, inum, addr, off, src, tot);
    WriteStepBytes(l, f, f1, g, inum, addr, off, src, tot);
    WriteStepSlots(l, f, f1, g, inum, addr, off, src, tot);
  }

  /** A new size for inode i. */
  function Resized(f: FS, i: nat, size: nat): FS
    requires i in f.inodes
  {
    f.(inodes := f.inodes[i := f.inodes[i].(size := size)])
  }

  lemma ResizeKeeps(l: Layout, f: FS, i: nat, size: nat)
    requires Owned(l, f) && i in f.inodes && size <= MAXFILE * BSIZE
    ensures Owned(l, Resized(f, i, size))
    ensures forall j, t | j in f.inodes && 0 <= t < NSLOTS :: Addr(l, Resized(f, i, size), j, t) == Addr(l, f, j, t)
    ensures SameFiles(l, f, Resized(f, i, size))
  {
    var h := Resized(f, i, size);
    assert Shape(l, h);
    forall j, t | j in f.inodes && 0 <= t < NSLOTS ensures Addr(l, h, j, t) == Addr(l, f, j, t) {
    }
    assert Owned(l, h);
  }

  /** Contents are equal when sizes and bytes are. */
  lemma ContentIs(l: Layout, f: FS, i: nat, c: seq<Byte>)
    requires Owned(l, f) && i in f.inodes && |c| == f.inodes[i].size
    requires forall k | 0 <= k < |c| :: c[k] == ByteAt(l, f, i, k)
    ensures Content(l, f, i) == c
  {
    hide Owned, ByteAt;
    OwnedShape(l, f);
    var d := Content(l, f, i);
    forall k | 0 <= k < |c| ensures d[k] == c[k] {
      assert c[k] == ByteAt(l, f, i, k);
    }
  }

  lemma ContentAt(l: Layout, f: FS, i: nat, k: nat)
    requires Owned(l, f) && i in f.inodes && k < f.inodes[i].size
    ensures k < MAXFILE * BSIZE && Content(l, f, i)[k] == ByteAt(l, f, i, k)
  {
  }

  lemma SpliceAt(c: seq<Byte>, off: nat, src: seq<Byte>, k: nat)
    requires off <= |c| && k < |Splice(c, off, src)|
    ensures Splice(c, off, src)[k] == if off <= k < off + |src| then src[k - off] else if k < |c| then c[k] else 0
  {
  }

  /** The size writei leaves behind. */
  function SizeAfter(size: nat, off: nat, n: nat): nat {
    if n > 0 && off + n > size then off + n else size
  }

  /** The file written to is the old one with src laid over it; no other file changes. */
  lemma WrittenContent(l: Layout, f: FS, f': FS, inum: nat, off: nat, src: seq<Byte>)
    requires WriteInv(l, f, f', inum, off, src, |src|)
    requires off <= f.inodes[inum].size && off + |src| <= MAXFILE * BSIZE
    ensures f.inodes[inum].size <= MAXFILE * BSIZE
    ensures var h := Resized(f', inum, SizeAfter(f.inodes[inum].size, off, |src|));
            Owned(l, h) && Content(l, h, inum) == Splice(Content(l, f, inum), off, src)
  {
    hide Owned, ByteAt, Content, FilledRange, Splice;
    OwnedShape(l, f);
    var size := SizeAfter(f.inodes[inum].size, off, |src|);
    ResizeKeeps(l, f', inum, size);
    var h := Resized(f', inum, size);
    var c := Splice(Content(l, f, inum), off, src);
    forall k | 0 <= k < |c| ensures c[k] == ByteAt(l, h, inum, k) {
      SpliceAt(Content(l, f, inum), off, src, k);
      if k < f.inodes[inum].size {
        ContentAt(l, f, inum, k);
      }
    }
    ContentIs(l, h, inum, c);
  }

  lemma OthersUnchanged(l: Layout, f: FS, f': FS, inum: nat, off: nat, src: seq<Byte>, size: nat, j: nat)
    requires WriteInv(l, f, f', inum, off, src, |src|) && size <= MAXFILE * BSIZE
    requires j in f.inodes && j != inum
    ensures Owned(l, Resized(f', inum, size))
    ensures Content(l, Resized(f', inum, size), j) == Content(l, f, j)
  {
    hide Owned, ByteAt, Content, FilledRange;
    OwnedShape(l, f);
    ResizeKeeps(l, f', inum, size);
    var c := Content(l, f, j);
    forall k | 0 <= k < |c| ensures c[k] == ByteAt(l, Resized(f', inum, size), j, k) {
      ContentAt(l, f, j, k);
    }
    ContentIs(l, Resized(f', inum, size), j, c);
  }

  // ---- the cost of a write in logged blocks ----

  /** The block that logging an entry of the indirect block touches. */
  function IndirectOf(ip: Inode, s: nat): set<nat>
    requires |ip.addrs| == NDIRECT + 1
  {
    if s > NDIRECT then {ip.addrs[NDIRECT]} else {}
  }

  /** How many of the file's blocks from..end-1 are not allocated. */
  ghost function Holes(l: Layout, f: FS, inum: nat, from: nat, end: nat): nat
    requires Owned(l, f) && inum in f.inodes && end <= MAXFILE
    decreases end
  {
    if end <= from then 0
    else Holes(l, f, inum, from, end - 1) + if Addr(l, f, inum, DataSlot(end - 1)) == 0 then 1 else 0
  }

  lemma HolesNext(l: Layout, f: FS, inum: nat, from: nat, end: nat)
    requires Owned(l, f) && inum in f.inodes && from < end <= MAXFILE
    ensures Holes(l, f, inum, from, end)
            == Holes(l, f, inum, from, end - 1) + if Addr(l, f, inum, DataSlot(end - 1)) == 0 then 1 else 0
  {
  }

  lemma {:induction false} HolesBound(l: Layout, f: FS, inum: nat, from: nat, end: nat, first: nat)
    requires Owned(l, f) && inum in f.inodes && end <= MAXFILE
    requires forall bn | 0 <= bn < first && bn < MAXFILE :: Addr(l, f, inum, DataSlot(bn)) != 0
    ensures Holes(l, f, inum, from, end) <= if end > first then end - first else 0
  {
    if end > from {
      HolesBound(l, f, inum, from, end - 1, first);
    }
  }

  /** The blocks a write of tot bytes at off has touched: off / BSIZE up to this one. */
  function BlocksEnd(off: nat, tot: nat): nat {
    if tot == 0 then off / BSIZE else (off + tot - 1) / BSIZE + 1
  }

  ghost function IndirectTouched(l: Layout, f: FS, inum: nat, off: nat, tot: nat): set<nat>
    requires Shape(l, f) && inum in f.inodes
  {
    if tot > 0 && BlocksEnd(off, tot) > NDIRECT then {f.inodes[inum].addrs[NDIRECT]} else {}
  }

  /** The blocks logged so far: data blocks, bitmap blocks, and perhaps the indirect block. */
  ghost predicate Cost(l: Layout, f: FS, f': FS, inum: nat, off: nat, tot: nat, was: set<nat>, logged: set<nat>,
                       data: set<nat>, bitmaps: set<nat>)
    requires Owned(l, f) && Owned(l, f') && inum in f.inodes && inum in f'.inodes
    requires off + tot <= MAXFILE * BSIZE
  {
    && logged <= was + data + bitmaps + IndirectTouched(l, f', inum, off, tot)
    && |data| <= BlocksEnd(off, tot) - off / BSIZE
    && |bitmaps| <= Holes(l, f, inum, off / BSIZE, BlocksEnd(off, tot))
                    + (if BlocksEnd(off, tot) > NDIRECT && tot > 0 && f.inodes[inum].addrs[NDIRECT] == 0 then 1 else 0)
  }

  lemma ChunkBlocks(off: nat, n: nat, tot: nat)
    requires tot < n && (tot == 0 || (off + tot) % BSIZE == 0)
    ensures BlocksEnd(off, tot) == (off + tot) / BSIZE
    ensures BlocksEnd(off, tot + Chunk(off, n, tot)) == BlocksEnd(off, tot) + 1
    ensures Chunk(off, n, tot) > 0
    ensures tot + Chunk(off, n, tot) == n || (off + tot + Chunk(off, n, tot)) % BSIZE == 0
  {
    var o, m := off + tot, Chunk(off, n, tot);
    assert (o + m - 1) / BSIZE == o / BSIZE;
    assert tot > 0 ==> (o - 1) / BSIZE == o / BSIZE - 1;
  }

  /** bmap finds the slots of the next block as the write found them at its start. */
  lemma FillsAreHoles(l: Layout, f: FS, f1: FS, inum: nat, off: nat, src: seq<Byte>, tot: nat)
    requires WriteInv(l, f, f1, inum, off, src, tot) && tot < |src| && off + |src| <= MAXFILE * BSIZE
    requires tot == 0 || (off + tot) % BSIZE == 0
    ensures var bn := (off + tot) / BSIZE;
            && Addr(l, f1, inum, DataSlot(bn)) == Addr(l, f, inum, DataSlot(bn))
            && (bn >= NDIRECT && f1.inodes[inum].addrs[NDIRECT] == 0 ==>
                  f.inodes[inum].addrs[NDIRECT] == 0 && (tot == 0 || BlocksEnd(off, tot) <= NDIRECT))
  {
    var bn := (off + tot) / BSIZE;
    ChunkBlocks(off, |src|, tot);
    AddrIndirect(l, f, inum);
    AddrIndirect(l, f1, inum);
    assert !Touched(DataSlot(bn), off, off + tot);
    assert f1.inodes[inum].addrs[NDIRECT] == 0 ==> !Touched(NDIRECT, off, off + tot);
  }

  /** Logging an indirect entry logs the one indirect block, now and later. */
  lemma IndirectGrows(l: Layout, f: FS, f1: FS, g: FS, inum: nat, addr: nat, off: nat, src: seq<Byte>, tot: nat)
    requires WriteInv(l, f, f1, inum, off, src, tot) && tot < |src| && off + |src| <= MAXFILE * BSIZE
    requires tot == 0 || (off + tot) % BSIZE == 0
    requires Mapped(l, f1, g, inum, (off + tot) / BSIZE, addr)
    ensures var tot' := tot + Chunk(off, |src|, tot);
            && IndirectTouched(l, f1, inum, off, tot) <= IndirectTouched(l, g, inum, off, tot')
            && IndirectOf(g.inodes[inum], DataSlot((off + tot) / BSIZE)) == IndirectTouched(l, g, inum, off, tot')
  {
    hide ByteAt, SameFiles, Written, SameMeta, FilledRange, Grows, Addr, Chunk, BlocksEnd;
    ChunkBlocks(off, |src|, tot);
    IndirectStays(l, f1, g, inum, (off + tot) / BSIZE, addr);
    if tot > 0 && BlocksEnd(off, tot) > NDIRECT {
      IndirectPresent(l, f, f1, inum, off, src, tot);
    }
  }

  lemma IndirectPresent(l: Layout, f: FS, f1: FS, inum: nat, off: nat, src: seq<Byte>, tot: nat)
    requires WriteInv(l, f, f1, inum, off, src, tot) && tot > 0 && BlocksEnd(off, tot) > NDIRECT
    ensures Shape(l, f1) && f1.inodes[inum].addrs[NDIRECT] != 0
  {
    AddrIndirect(l, f1, inum);
    assert Touched(NDIRECT, off, off + tot);
  }

  lemma UnionSize(a: set<nat>, b: set<nat>)
    ensures |a + b| <= |a| + |b|
  {
    assert a + b == a + (b - a);
    SubsetSize(b - a, b);
  }

  lemma WriteInvFacts(l: Layout, f: FS, f1: FS, inum: nat, off: nat, src: seq<Byte>, tot: nat)
    requires WriteInv(l, f, f1, inum, off, src, tot)
    ensures Owned(l, f) && Owned(l, f1) && Shape(l, f) && Shape(l, f1) && inum in f.inodes && inum in f1.inodes && tot <= |src|
  {
  }

  lemma MappedOwned(l: Layout, f: FS, g: FS, inum: nat, bn: nat, addr: nat)
    requires Mapped(l, f, g, inum, bn, addr)
    ensures Owned(l, f) && Owned(l, g) && Shape(l, f) && Shape(l, g) && inum in f.inodes && inum in g.inodes && bn < MAXFILE
    ensures |g.inodes[inum].addrs| == NDIRECT + 1
  {
  }

  lemma CostCounts(l: Layout, f: FS, f1: FS, g: FS, inum: nat, addr: nat, off: nat, src: seq<Byte>, tot: nat,
                   was: set<nat>, logged: set<nat>, data: set<nat>, bitmaps: set<nat>, more: set<nat>)
    requires WriteInv(l, f, f1, inum, off, src, tot) && tot < |src| && off + |src| <= MAXFILE * BSIZE
    requires tot == 0 || (off + tot) % BSIZE == 0
    requires Mapped(l, f1, g, inum, (off + tot) / BSIZE, addr)
    requires Cost(l, f, f1, inum, off, tot, was, logged, data, bitmaps)
    requires |more| <= Fills(l, f1, inum, (off + tot) / BSIZE)
    ensures var tot' := tot + Chunk(off, |src|, tot);
            && |data + {addr}| <= BlocksEnd(off, tot') - off / BSIZE
            && |bitmaps + more| <= Holes(l, f, inum, off / BSIZE, BlocksEnd(off, tot'))
                    + (if BlocksEnd(off, tot') > NDIRECT && tot' > 0 && f.inodes[inum].addrs[NDIRECT] == 0 then 1 else 0)
  {
    hide Owned, ByteAt, SameFiles, Written, FilledRange, SameMeta, Addr, Grows, Holes, IndirectTouched, BlocksEnd, Chunk, IndirectOf, Shape,
      WriteInv, Mapped;
    var bn := (off + tot) / BSIZE;
    WriteInvFacts(l, f, f1, inum, off, src, tot);
    MappedOwned(l, f1, g, inum, bn, addr);
    ChunkBlocks(off, |src|, tot);
    FillsAreHoles(l, f, f1, inum, off, src, tot);
    HolesNext(l, f, inum, off / BSIZE, bn + 1);
    UnionSize(data, {addr});
    UnionSize(bitmaps, more);
  }

  lemma CostStep(l: Layout, f: FS, f1: FS, g: FS, inum: nat, addr: nat, off: nat, src: seq<Byte>, tot: nat,
                 was: set<nat>, logged: set<nat>, data: set<nat>, bitmaps: set<nat>, more: set<nat>)
    requires WriteInv(l, f, f1, inum, off, src, tot) && tot < |src| && off + |src| <= MAXFILE * BSIZE
    requires tot == 0 || (off + tot) % BSIZE == 0
    requires Mapped(l, f1, g, inum, (off + tot) / BSIZE, addr)
    requires Cost(l, f, f1, inum, off, tot, was, logged, data, bitmaps)
    requires |more| <= Fills(l, f1, inum, (off + tot) / BSIZE)
    ensures var bn := (off + tot) / BSIZE;
            Cost(l, f, g, inum, off, tot + Chunk(off, |src|, tot), was,
                 logged + more + {addr} + IndirectOf(g.inodes[inum], DataSlot(bn)), data + {addr}, bitmaps + more)
  {
    hide Owned, ByteAt, SameFiles, Written, FilledRange, SameMeta, Addr, Grows, Holes, IndirectTouched, BlocksEnd, Chunk, IndirectOf, Shape,
      WriteInv, Mapped, Fills;
    var bn := (off + tot) / BSIZE;
    WriteInvFacts(l, f, f1, inum, off, src, tot);
    MappedOwned(l, f1, g, inum, bn, addr);
    ChunkBlocks(off, |src|, tot);
    CostCounts(l, f, f1, g, inum, addr, off, src, tot, was, logged, data, bitmaps, more);
    IndirectGrows(l, f, f1, g, inum, addr, off, src, tot);
    GatherSets(was, logged, data, bitmaps, more, addr, IndirectTouched(l, f1, inum, off, tot),
               IndirectTouched(l, g, inum, off, tot + Chunk(off, |src|, tot)));
  }

  lemma GatherSets(was: set<nat>, logged: set<nat>, data: set<nat>, bitmaps: set<nat>, more: set<nat>, addr: nat,
                   ind: set<nat>, ind': set<nat>)
    requires logged <= was + data + bitmaps + ind && ind <= ind'
    ensures logged + more + {addr} + ind' <= was + (data + {addr}) + (bitmaps + more) + ind'
  {
  }

  lemma IndirectStays(l: Layout, f: FS, g: FS, inum: nat, bn: nat, addr: nat)
    requires Mapped(l, f, g, inum, bn, addr)
    ensures f.inodes[inum].addrs[NDIRECT] != 0 ==> g.inodes[inum].addrs[NDIRECT] == f.inodes[inum].addrs[NDIRECT]
  {
    AddrIndirect(l, f, inum);
    AddrIndirect(l, g, inum);
  }

  /** filewrite's chunk size: ((MAXOPBLOCKS-1-1-2) / 2) * 512 */
  const MAXCHUNK: nat := ((10 - 1 - 1 - 2) / 2) * 512

  /** The budget: an unaligned chunk touches four data blocks but can only allocate three of them. */
  lemma WithinTransaction(l: Layout, f: FS, f': FS, inum: nat, off: nat, n: nat, was: set<nat>, logged: set<nat>,
                          data: set<nat>, bitmaps: set<nat>, iblock: nat)
    requires Owned(l, f) && Owned(l, f') && inum in f.inodes && inum in f'.inodes
    requires off + n <= MAXFILE * BSIZE && off <= f.inodes[inum].size && n <= MAXCHUNK && NoHoles(l, f, inum)
    requires Cost(l, f, f', inum, off, n, was, logged, data, bitmaps)
    ensures |logged + {iblock} - was| <= 10 && |logged - was| <= 10
  {
    var first := (off + BSIZE - 1) / BSIZE;
    HolesBound(l, f, inum, off / BSIZE, BlocksEnd(off, n), first);
    var ind := IndirectTouched(l, f', inum, off, n);
    var all := data + bitmaps + ind + {iblock};
    assert logged + {iblock} - was <= all;
    assert |all| <= |data| + |bitmaps| + |ind| + 1;
    SubsetSize(logged + {iblock} - was, all);
    SubsetSize(logged - was, all);
    assert BlocksEnd(off, n) - off / BSIZE + (if BlocksEnd(off, n) > first then BlocksEnd(off, n) - first else 0) <= 7;
  }

  lemma WriteStart(l: Layout, f: FS, inum: nat, off: nat, src: seq<Byte>, logged: set<nat>)
    requires Owned(l, f) && inum in f.inodes && off + |src| <= MAXFILE * BSIZE
    ensures WriteInv(l, f, f, inum, off, src, 0)
    ensures Cost(l, f, f, inum, off, 0, logged, logged, {}, {})
  {
  }

  /** The store itself changes no address, so the count of logged blocks stands. */
  lemma CostAfterStore(l: Layout, f: FS, g: FS, h: FS, inum: nat, off: nat, tot: nat, was: set<nat>, bound: set<nat>,
                       data: set<nat>, bitmaps: set<nat>, logged: set<nat>)
    requires Owned(l, f) && Owned(l, g) && Owned(l, h) && inum in f.inodes && inum in g.inodes && h.inodes == g.inodes
    requires off + tot <= MAXFILE * BSIZE
    requires Cost(l, f, g, inum, off, tot, was, bound, data, bitmaps) && logged <= bound
    ensures Cost(l, f, h, inum, off, tot, was, logged, data, bitmaps)
  {
    hide Owned, Holes;
    OwnedShape(l, g);
    OwnedShape(l, h);
  }

  // ---- what a write must log ----

  /** A block that was not logged has not changed, and neither have the bits of a bitmap block that was not logged. */
  ghost predicate OnlyLogged(l: Layout, f: FS, f': FS, logged: set<nat>)
    requires Shape(l, f) && Shape(l, f')
  {
    && (forall b | 0 <= b < l.size && b !in logged :: f'.blocks[b] == f.blocks[b])
    && (forall b | 0 <= b < l.size && l.BitmapBlock(b) !in logged :: Bit(f'.bitmap, b) <==> Bit(f.bitmap, b))
  }

  /** Everything changed between f and f' has been logged, in particular each slot filled and its bitmap block. */
  ghost predicate LogsFills(l: Layout, f: FS, f': FS, inum: nat, logged: set<nat>)
    requires Owned(l, f) && Owned(l, f') && inum in f.inodes && inum in f'.inodes
  {
    && OnlyLogged(l, f, f', logged)
    && forall t | 0 <= t < NSLOTS && Addr(l, f, inum, t) == 0 && Addr(l, f', inum, t) != 0 ::
      Addr(l, f', inum, t) in logged && l.BitmapBlock(Addr(l, f', inum, t)) in logged
  }

  lemma FillOnlyLogged(l: Layout, f: FS, inum: nat, s: nat, b: nat, logged: set<nat>)
    requires CanFill(l, f, inum, s, b) && b in logged && l.BitmapBlock(b) in logged
    requires s > NDIRECT ==> f.inodes[inum].addrs[NDIRECT] != b && f.inodes[inum].addrs[NDIRECT] in logged
    requires Shape(l, WithSlot(l, f, inum, s, b))
    ensures OnlyLogged(l, f, WithSlot(l, f, inum, s, b), logged)
  {
    hide Bit, WithBit;
    forall c | 0 <= c < l.size && l.BitmapBlock(c) !in logged
      ensures Bit(WithSlot(l, f, inum, s, b).bitmap, c) <==> Bit(f.bitmap, c)
    {
      WithBitTests(f.bitmap, b, c);
    }
  }

  /** And so has every data block that tot bytes at off touch. */
  ghost predicate LogsAll(l: Layout, f: FS, f': FS, inum: nat, off: nat, tot: nat, logged: set<nat>)
    requires Owned(l, f) && Owned(l, f') && inum in f.inodes && inum in f'.inodes
  {
    && LogsFills(l, f, f', inum, logged)
    && forall bn | off / BSIZE <= bn < BlocksEnd(off, tot) && bn < MAXFILE :: Addr(l, f', inum, DataSlot(bn)) in logged
  }

  lemma FillLogs(l: Layout, f: FS, inum: nat, s: nat, b: nat, logged: set<nat>)
    requires CanFill(l, f, inum, s, b) && b in logged && l.BitmapBlock(b) in logged
    requires s > NDIRECT ==> f.inodes[inum].addrs[NDIRECT] != b && f.inodes[inum].addrs[NDIRECT] in logged
    ensures var f' := WithSlot(l, f, inum, s, b); Owned(l, f') && inum in f'.inodes && LogsFills(l, f, f', inum, logged)
  {
    hide Owned, WithSlot, Addr, OnlyLogged;
    OwnedShape(l, f);
    FillGrows(l, f, inum, s, b);
    OwnedShape(l, WithSlot(l, f, inum, s, b));
    FillOnlyLogged(l, f, inum, s, b, logged);
  }

  lemma NothingLogged(l: Layout, f: FS, inum: nat, logged: set<nat>)
    requires Owned(l, f) && inum in f.inodes
    ensures LogsFills(l, f, f, inum, logged)
  {
  }

  lemma LogsBoth(l: Layout, f: FS, g: FS, h: FS, inum: nat, bn: nat, logged: set<nat>, logged': set<nat>)
    requires Owned(l, f) && Owned(l, g) && Owned(l, h) && inum in f.inodes && inum in g.inodes && inum in h.inodes
    requires LogsFills(l, f, g, inum, logged) && LogsFills(l, g, h, inum, logged') && logged <= logged'
    requires Grows(l, g, h, inum, bn)
    ensures LogsFills(l, f, h, inum, logged')
  {
    hide Owned, Addr;
    OwnedShape(l, f);
    OwnedShape(l, g);
    OwnedShape(l, h);
  }

  lemma StoredOnly(l: Layout, g: FS, addr: nat, off: nat, src: seq<Byte>, tot: nat)
    requires Shape(l, g) && addr < l.size && tot < |src|
    ensures var h := Stored(l, g, addr, off, src, tot);
            && h.bitmap == g.bitmap && |h.blocks| == |g.blocks|
            && forall b | 0 <= b < l.size && b != addr :: h.blocks[b] == g.blocks[b]
  {
  }

  lemma LogsStep(l: Layout, f: FS, f1: FS, g: FS, inum: nat, addr: nat, off: nat, src: seq<Byte>, tot: nat,
                 logged: set<nat>, logged': set<nat>)
    requires WriteInv(l, f, f1, inum, off, src, tot) && tot < |src| && off + |src| <= MAXFILE * BSIZE
    requires tot == 0 || (off + tot) % BSIZE == 0
    requires Mapped(l, f1, g, inum, (off + tot) / BSIZE, addr) && inum in f1.inodes
    requires LogsAll(l, f, f1, inum, off, tot, logged) && LogsFills(l, f1, g, inum, logged')
    requires logged <= logged' && addr in logged'
    ensures addr < l.size
    ensures var h := Stored(l, g, addr, off, src, tot);
            Owned(l, h) && inum in h.inodes && LogsAll(l, f, h, inum, off, tot + Chunk(off, |src|, tot), logged')
  {
    hide Owned, Addr, Stored, ByteAt, SameFiles, SameMeta, Written, FilledRange;
    OwnedShape(l, f1);
    OwnedShape(l, g);
    StoredOwned(l, f1, g, inum, addr, off, src, tot);
    ChunkBlocks(off, |src|, tot);
    LogsBoth(l, f, f1, g, inum, (off + tot) / BSIZE, logged, logged');
    StoredOnly(l, g, addr, off, src, tot);
    var h := Stored(l, g, addr, off, src, tot);
    OwnedShape(l, h);
  }

  /** All that bmap promises: the mapping, and what it has logged, bitmaps being the bitmap blocks. */
  ghost predicate MapOutcome(l: Layout, f: FS, f': FS, inum: nat, bn: nat, addr: nat,
                             was: set<nat>, logged: set<nat>, bitmaps: set<nat>) {
    && Mapped(l, f, f', inum, bn, addr)
    && (Addr(l, f, inum, DataSlot(bn)) != 0 ==> f' == f && logged == was)
    && was <= logged <= was + bitmaps + {addr} + IndirectOf(f'.inodes[inum], DataSlot(bn))
    && |bitmaps| <= Fills(l, f, inum, bn)
    && LogsFills(l, f, f', inum, logged)
  }

  lemma OutcomeMaps(l: Layout, f: FS, f': FS, inum: nat, bn: nat, addr: nat,
                    was: set<nat>, logged: set<nat>, bitmaps: set<nat>)
    requires MapOutcome(l, f, f', inum, bn, addr, was, logged, bitmaps)
    ensures Mapped(l, f, f', inum, bn, addr) && Shape(l, f)
    ensures Addr(l, f, inum, DataSlot(bn)) != 0 ==> f' == f && logged == was
  {
  }

  lemma OutcomeNone(l: Layout, f: FS, inum: nat, bn: nat, was: set<nat>)
    requires Owned(l, f) && inum in f.inodes && bn < MAXFILE && Addr(l, f, inum, DataSlot(bn)) != 0
    ensures MapOutcome(l, f, f, inum, bn, Addr(l, f, inum, DataSlot(bn)), was, was, {})
  {
    hide Owned, Grows, SameFiles, SameMeta;
    OwnedShape(l, f);
    MapsNone(l, f, inum, bn);
    NothingLogged(l, f, inum, was);
  }

  lemma OutcomeOne(l: Layout, f: FS, inum: nat, bn: nat, b: nat, was: set<nat>, logged: set<nat>)
    requires bn < MAXFILE && CanFill(l, f, inum, DataSlot(bn), b)
    requires bn >= NDIRECT ==> f.inodes[inum].addrs[NDIRECT] != b && f.inodes[inum].addrs[NDIRECT] in logged
    requires was + {l.BitmapBlock(b), b} <= logged
    requires var f' := WithSlot(l, f, inum, DataSlot(bn), b);
             inum in f'.inodes && |f'.inodes[inum].addrs| == NDIRECT + 1
             && logged <= was + {l.BitmapBlock(b), b} + IndirectOf(f'.inodes[inum], DataSlot(bn))
    ensures MapOutcome(l, f, WithSlot(l, f, inum, DataSlot(bn), b), inum, bn, b, was, logged, {l.BitmapBlock(b)})
  {
    hide Owned, Grows, SameFiles, SameMeta, WithSlot, LogsFills;
    OwnedShape(l, f);
    MapsOne(l, f, inum, bn, b);
    FillLogs(l, f, inum, DataSlot(bn), b, logged);
  }

  /** The indirect block was allocated first, with bitmap block bm. */
  lemma OutcomeBoth(l: Layout, f: FS, g: FS, h: FS, inum: nat, bn: nat, b: nat, bm: nat, bitmaps: set<nat>,
                    was: set<nat>, mid: set<nat>, logged: set<nat>)
    requires Owned(l, f) && inum in f.inodes && NDIRECT <= bn && f.inodes[inum].addrs[NDIRECT] == 0
    requires Owned(l, g) && inum in g.inodes && SameFiles(l, f, g) && SameMeta(f, g) && Grows(l, f, g, inum, bn)
    requires var ind := g.inodes[inum].addrs[NDIRECT];
             && ind != 0 && LogsFills(l, f, g, inum, mid)
             && was <= mid <= was + {bm, ind}
    requires MapOutcome(l, g, h, inum, bn, b, mid, logged, bitmaps)
    requires Addr(l, g, inum, DataSlot(bn)) == 0 && Addr(l, f, inum, DataSlot(bn)) == 0
    ensures MapOutcome(l, f, h, inum, bn, b, was, logged, bitmaps + {bm})
  {
    OwnedShape(l, f);
    OwnedShape(l, g);
    OwnedShape(l, h);
    IndirectStays(l, g, h, inum, bn, b);
    hide Owned, Grows, SameFiles, SameMeta, LogsFills, Addr;
    MapsBoth(l, f, g, h, inum, bn, b);
    LogsBoth(l, f, g, h, inum, bn, mid, logged);
    UnionSize(bitmaps, {bm});
  }

  lemma StuckAtOnce(l: Layout, f: FS, inum: nat, bn: nat)
    requires Owned(l, f) && inum in f.inodes && bn < MAXFILE
    ensures Shape(l, f)
    ensures Full(l, f.bitmap) && Addr(l, f, inum, DataSlot(bn)) == 0 ==> Stuck(l, f, f, inum, bn)
  {
  }

  lemma StuckBoth(l: Layout, f: FS, g: FS, h: FS, inum: nat, bn: nat)
    requires Owned(l, f) && inum in f.inodes && NDIRECT <= bn
    requires Owned(l, g) && inum in g.inodes && Grows(l, f, g, inum, bn) && Stuck(l, g, h, inum, bn)
    ensures Stuck(l, f, h, inum, bn)
  {
    hide Owned, Addr, Full;
    OwnedShape(l, f);
    OwnedShape(l, g);
    OwnedShape(l, h);
  }

  /** No block is left, and only empty slots in the way of the bytes from..end-1 have been filled. */
  ghost predicate UsedUp(l: Layout, f: FS, f': FS, inum: nat, from: nat, end: nat) {
    && Owned(l, f) && Owned(l, f') && inum in f.inodes && f'.inodes.Keys == f.inodes.Keys
    && Full(l, f'.bitmap)
    && (forall j, t | j in f.inodes && 0 <= t < NSLOTS ::
          Addr(l, f', j, t) == Addr(l, f, j, t) || (j == inum && Addr(l, f, j, t) == 0 && Touched(t, from, end)))
  }

  /** A write has run out of blocks with a slot in its way still empty. */
  ghost predicate OutOfBlocks(l: Layout, f: FS, f': FS, inum: nat, from: nat, end: nat) {
    UsedUp(l, f, f', inum, from, end) && exists t | 0 <= t < NSLOTS :: Touched(t, from, end) && Addr(l, f', inum, t) == 0
  }

  lemma TouchedMore(t: nat, from: nat, mid: nat, end: nat)
    requires Touched(t, from, mid) && mid <= end
    ensures Touched(t, from, end)
  {
  }

  lemma RangeStuck(l: Layout, f: FS, f1: FS, g: FS, inum: nat, off: nat, n: nat, tot: nat)
    requires Owned(l, f) && Owned(l, f1) && FilledRange(l, f, f1, inum, off, off + tot) && tot < n
    requires Stuck(l, f1, g, inum, (off + tot) / BSIZE)
    ensures OutOfBlocks(l, f, g, inum, off, off + n)
  {
    hide Owned, Addr, Full, Touched;
    OwnedShape(l, f);
    OwnedShape(l, f1);
    OwnedShape(l, g);
    StuckTouches(off, n, tot);
    forall j, t | j in f.inodes && 0 <= t < NSLOTS
      ensures Addr(l, g, j, t) == Addr(l, f, j, t) || (j == inum && Addr(l, f, j, t) == 0 && Touched(t, off, off + n))
    {
      if Touched(t, off, off + tot) {
        TouchedMore(t, off, off + tot, off + n);
      }
    }
  }

  lemma StuckTouches(off: nat, n: nat, tot: nat)
    requires tot < n
    ensures var bn := (off + tot) / BSIZE;
            Touched(DataSlot(bn), off, off + n) && (bn >= NDIRECT ==> Touched(NDIRECT, off, off + n))
  {
  }

  lemma ResizeLogs(l: Layout, f: FS, f': FS, inum: nat, off: nat, tot: nat, logged: set<nat>, more: nat, size: nat)
    requires Owned(l, f) && Owned(l, f') && inum in f.inodes && inum in f'.inodes && size <= MAXFILE * BSIZE
    requires LogsAll(l, f, f', inum, off, tot, logged)
    ensures Owned(l, Resized(f', inum, size)) && LogsAll(l, f, Resized(f', inum, size), inum, off, tot, logged + {more})
  {
    ResizeKeeps(l, f', inum, size);
    hide Owned, Addr, Resized;
    OwnedShape(l, f);
    OwnedShape(l, f');
  }

  /** The invariant of writei's loop: what has been written and what it has cost. */
  ghost predicate WriteLoop(l: Layout, f: FS, f': FS, inum: nat, off: nat, src: seq<Byte>, tot: nat,
                            was: set<nat>, logged: set<nat>, data: set<nat>, bitmaps: set<nat>)
  {
    && WriteInv(l, f, f', inum, off, src, tot)
    && inum in f'.inodes && off + |src| <= MAXFILE * BSIZE
    && (tot == 0 || tot == |src| || (off + tot) % BSIZE == 0)
    && Cost(l, f, f', inum, off, tot, was, logged, data, bitmaps)
  }

  lemma WriteLoopStep(l: Layout, f: FS, f1: FS, g: FS, inum: nat, addr: nat, off: nat, src: seq<Byte>, tot: nat,
                      was: set<nat>, logged: set<nat>, data: set<nat>, bitmaps: set<nat>, more: set<nat>, logged': set<nat>)
    requires WriteLoop(l, f, f1, inum, off, src, tot, was, logged, data, bitmaps) && tot < |src|
    requires Mapped(l, f1, g, inum, (off + tot) / BSIZE, addr)
    requires |more| <= Fills(l, f1, inum, (off + tot) / BSIZE)
    requires Shape(l, g) && inum in g.inodes
    requires logged' <= logged + more + {addr} + IndirectOf(g.inodes[inum], DataSlot((off + tot) / BSIZE))
    ensures addr < l.size && Chunk(off, |src|, tot) > 0
    ensures WriteLoop(l, f, Stored(l, g, addr, off, src, tot), inum, off, src, tot + Chunk(off, |src|, tot),
                      was, logged', data + {addr}, bitmaps + more)
  {
    hide Owned, SameFiles, Written, FilledRange, SameMeta, Addr, Grows, Holes, Cost, Fills, IndirectOf, Stored;
    WriteStep(l, f, f1, g, inum, addr, off, src, tot);
    CostStep(l, f, f1, g, inum, addr, off, src, tot, was, logged, data, bitmaps, more);
    StoredOwned(l, f1, g, inum, addr, off, src, tot);
    ChunkBlocks(off, |src|, tot);
    CostAfterStore(l, f, g, Stored(l, g, addr, off, src, tot), inum, off, tot + Chunk(off, |src|, tot), was,
                   logged + more + {addr} + IndirectOf(g.inodes[inum], DataSlot((off + tot) / BSIZE)),
                   data + {addr}, bitmaps + more, logged');
  }

  lemma WriteLoopStart(l: Layout, f: FS, inum: nat, off: nat, src: seq<Byte>, logged: set<nat>)
    requires Owned(l, f) && inum in f.inodes && off + |src| <= MAXFILE * BSIZE
    ensures WriteLoop(l, f, f, inum, off, src, 0, logged, logged, {}, {})
  {
    WriteStart(l, f, inum, off, src, logged);
  }

  lemma LogsStart(l: Layout, f: FS, inum: nat, off: nat, logged: set<nat>)
    requires Owned(l, f) && inum in f.inodes
    ensures LogsAll(l, f, f, inum, off, 0, logged)
  {
    hide Owned;
    NothingLogged(l, f, inum, logged);
  }

  lemma OutcomeFacts(l: Layout, f: FS, f': FS, inum: nat, bn: nat, addr: nat,
                     was: set<nat>, logged: set<nat>, bitmaps: set<nat>)
    requires MapOutcome(l, f, f', inum, bn, addr, was, logged, bitmaps)
    ensures Mapped(l, f, f', inum, bn, addr) && Shape(l, f') && inum in f'.inodes
    ensures was <= logged <= was + bitmaps + {addr} + IndirectOf(f'.inodes[inum], DataSlot(bn))
    ensures |bitmaps| <= Fills(l, f, inum, bn) && LogsFills(l, f, f', inum, logged)
  {
  }

  lemma LoopStuck(l: Layout, f: FS, f1: FS, g: FS, inum: nat, off: nat, src: seq<Byte>, tot: nat,
                  was: set<nat>, logged: set<nat>, data: set<nat>, bitmaps: set<nat>)
    requires WriteLoop(l, f, f1, inum, off, src, tot, was, logged, data, bitmaps) && tot < |src|
    requires Stuck(l, f1, g, inum, (off + tot) / BSIZE)
    ensures OutOfBlocks(l, f, g, inum, off, off + |src|)
  {
    hide Stuck, OutOfBlocks, Cost, FilledRange, Written, SameMeta, Owned;
    RangeStuck(l, f, f1, g, inum, off, |src|, tot);
  }

  lemma LoopLogs(l: Layout, f: FS, f1: FS, g: FS, inum: nat, addr: nat, off: nat, src: seq<Byte>, tot: nat,
                 was: set<nat>, logged: set<nat>, data: set<nat>, bitmaps: set<nat>, mid: set<nat>, logged': set<nat>)
    requires WriteLoop(l, f, f1, inum, off, src, tot, was, logged, data, bitmaps) && tot < |src|
    requires Mapped(l, f1, g, inum, (off + tot) / BSIZE, addr)
    requires LogsAll(l, f, f1, inum, off, tot, logged) && LogsFills(l, f1, g, inum, mid)
    requires logged <= mid && logged' == mid + {addr}
    ensures addr < l.size
    ensures var h := Stored(l, g, addr, off, src, tot);
            Owned(l, h) && inum in h.inodes && LogsAll(l, f, h, inum, off, tot + Chunk(off, |src|, tot), logged')
  {
    hide Owned, Mapped, LogsAll, Cost, Stored, Addr;
    LogsStep(l, f, f1, g, inum, addr, off, src, tot, logged, logged');
  }

  lemma WriteLoopOwned(l: Layout, f: FS, f': FS, inum: nat, off: nat, src: seq<Byte>, tot: nat,
                       was: set<nat>, logged: set<nat>, data: set<nat>, bitmaps: set<nat>)
    requires WriteLoop(l, f, f', inum, off, src, tot, was, logged, data, bitmaps)
    ensures Owned(l, f') && inum in f'.inodes && off + |src| <= MAXFILE * BSIZE && tot <= |src|
  {
  }

  /** The write touches a block whose address the inode itself should hold but does not. */
  ghost predicate InodeHole(ip: Inode, off: nat, n: nat)
    requires |ip.addrs| == NDIRECT + 1
  {
    exists t | 0 <= t <= NDIRECT :: Touched(t, off, off + n) && ip.addrs[t] == 0
  }

  lemma OtherInodesUnchanged(l: Layout, f: FS, f': FS, inum: nat, off: nat, src: seq<Byte>, tot: nat, j: nat)
    requires WriteInv(l, f, f', inum, off, src, tot) && j in f.inodes && j != inum
    ensures f'.inodes[j] == f.inodes[j]
  {
    hide ByteAt, Written;
    var a, a' := f.inodes[j].addrs, f'.inodes[j].addrs;
    forall t | 0 <= t <= NDIRECT ensures a'[t] == a[t] {
      assert Addr(l, f', j, t) == Addr(l, f, j, t);
    }
  }

  /** The in-memory addresses change exactly when a hole in the inode was touched. */
  lemma AddrsChange(l: Layout, f: FS, f': FS, inum: nat, off: nat, src: seq<Byte>, tot: nat)
    requires WriteInv(l, f, f', inum, off, src, tot)
    ensures Shape(l, f) && Shape(l, f')
    ensures f'.inodes[inum].addrs == f.inodes[inum].addrs <==> !InodeHole(f.inodes[inum], off, tot)
  {
    hide ByteAt, Written, Touched;
    var a, a' := f.inodes[inum].addrs, f'.inodes[inum].addrs;
    assert forall t | 0 <= t <= NDIRECT :: Addr(l, f', inum, t) == a'[t] && Addr(l, f, inum, t) == a[t];
    if !InodeHole(f.inodes[inum], off, tot) {
      forall t | 0 <= t <= NDIRECT ensures a'[t] == a[t] {
      }
      assert a' == a;
    } else {
      var t :| 0 <= t <= NDIRECT && Touched(t, off, off + tot) && a[t] == 0;
      assert Addr(l, f', inum, t) != 0;
    }
  }

  /** A write inside a file without holes finds every address it needs. */
  lemma NoHoleNoChange(l: Layout, f: FS, inum: nat, off: nat, n: nat)
    requires Owned(l, f) && inum in f.inodes && NoHoles(l, f, inum) && off + n <= f.inodes[inum].size
    ensures Shape(l, f) && !InodeHole(f.inodes[inum], off, n)
  {
    forall t | 0 <= t <= NDIRECT && Touched(t, off, off + n) ensures f.inodes[inum].addrs[t] != 0 {
      var bn := if t < NDIRECT then t else (off + n - 1) / BSIZE;
      assert Addr(l, f, inum, DataSlot(bn)) != 0;
    }
  }

  lemma BlockTouched(bn: nat, from: nat, to: nat)
    requires bn < MAXFILE && from <= bn * BSIZE < to
    ensures DataSlot(bn) < NSLOTS && Touched(DataSlot(bn), from, to)
  {
  }

  /** A write that starts no later than the end leaves no hole behind. */
  lemma NoNewHoles(l: Layout, f: FS, f': FS, inum: nat, off: nat, src: seq<Byte>)
    requires WriteInv(l, f, f', inum, off, src, |src|) && NoHoles(l, f, inum)
    requires off <= f.inodes[inum].size && off + |src| <= MAXFILE * BSIZE
    ensures f.inodes[inum].size <= MAXFILE * BSIZE
    ensures var h := Resized(f', inum, SizeAfter(f.inodes[inum].size, off, |src|));
            Owned(l, h) && NoHoles(l, h, inum)
  {
    hide Owned, Addr, Touched, SameFiles, Written;
    OwnedShape(l, f);
    OwnedShape(l, f');
    var size := SizeAfter(f.inodes[inum].size, off, |src|);
    ResizeKeeps(l, f', inum, size);
    var h := Resized(f', inum, size);
    OwnedShape(l, h);
    forall bn | 0 <= bn < MAXFILE && bn * BSIZE < size ensures Addr(l, h, inum, DataSlot(bn)) != 0 {
      if bn * BSIZE < f.inodes[inum].size {
        assert Addr(l, f, inum, DataSlot(bn)) != 0;
      } else {
        BlockTouched(bn, off, off + |src|);
      }
    }
  }

  ghost predicate OthersSame(l: Layout, f: FS, h: FS, inum: nat)
    requires Owned(l, f) && Owned(l, h)
  {
    && h.inodes.Keys == f.inodes.Keys
    && forall j | j in f.inodes && j != inum :: h.inodes[j] == f.inodes[j] && Content(l, h, j) == Content(l, f, j)
  }

  lemma EndOthers(l: Layout, f: FS, f': FS, inum: nat, off: nat, src: seq<Byte>, size: nat)
    requires WriteInv(l, f, f', inum, off, src, |src|) && size <= MAXFILE * BSIZE
    ensures Owned(l, Resized(f', inum, size)) && OthersSame(l, f, Resized(f', inum, size), inum)
  {
    hide ByteAt, Written, Content, FilledRange, Owned;
    ResizeKeeps(l, f', inum, size);
    forall j | j in f.inodes && j != inum
      ensures f'.inodes[j] == f.inodes[j] && Content(l, Resized(f', inum, size), j) == Content(l, f, j)
    {
      OtherInodesUnchanged(l, f, f', inum, off, src, |src|, j);
      OthersUnchanged(l, f, f', inum, off, src, size, j);
    }
  }

  lemma WriteLoopBudget(l: Layout, f: FS, f': FS, inum: nat, off: nat, src: seq<Byte>,
                        was: set<nat>, logged: set<nat>, data: set<nat>, bitmaps: set<nat>, iblock: nat)
    requires WriteLoop(l, f, f', inum, off, src, |src|, was, logged, data, bitmaps)
    requires off <= f.inodes[inum].size && NoHoles(l, f, inum) && |src| <= MAXCHUNK
    ensures |logged + {iblock} - was| <= 10 && |logged - was| <= 10
  {
    hide Owned, Written, FilledRange, SameMeta, Holes, NoHoles, Cost;
    WithinTransaction(l, f, f', inum, off, |src|, was, logged, data, bitmaps, iblock);
  }

  /** What the completed loop of writei leaves to be made permanent. */
  lemma ResizeFills(l: Layout, f: FS, f': FS, inum: nat, off: nat, src: seq<Byte>, size: nat)
    requires WriteInv(l, f, f', inum, off, src, |src|) && size <= MAXFILE * BSIZE && inum in f'.inodes
    ensures Owned(l, Resized(f', inum, size)) && FilledRange(l, f, Resized(f', inum, size), inum, off, off + |src|)
  {
    ResizeKeeps(l, f', inum, size);
    hide Owned, Addr, ByteAt, Written, SameMeta, Touched;
    OwnedShape(l, f);
    OwnedShape(l, f');
    OwnedShape(l, Resized(f', inum, size));
  }

  lemma WriteEnd(l: Layout, f: FS, f': FS, inum: nat, off: nat, src: seq<Byte>,
                 was: set<nat>, logged: set<nat>, data: set<nat>, bitmaps: set<nat>)
    requires WriteLoop(l, f, f', inum, off, src, |src|, was, logged, data, bitmaps)
    requires off <= f.inodes[inum].size
    ensures Shape(l, f) && f.inodes[inum].size <= MAXFILE * BSIZE && inum in f'.inodes
    ensures f'.inodes[inum] == f.inodes[inum].(addrs := f'.inodes[inum].addrs)
    ensures f'.inodes[inum].addrs == f.inodes[inum].addrs <==> !InodeHole(f.inodes[inum], off, |src|)
    ensures var size := SizeAfter(f.inodes[inum].size, off, |src|);
            var h := Resized(f', inum, size);
            && Owned(l, h) && OthersSame(l, f, h, inum)
            && Content(l, h, inum) == Splice(Content(l, f, inum), off, src)
            && (NoHoles(l, f, inum) ==> NoHoles(l, h, inum))
            && FilledRange(l, f, h, inum, off, off + |src|)
            && (size == f.inodes[inum].size ==> h == f')
  {
    hide ByteAt, Written, Content, FilledRange, Owned, NoHoles, InodeHole, OthersSame, Cost;
    OwnedShape(l, f);
    AddrsChange(l, f, f', inum, off, src, |src|);
    WrittenContent(l, f, f', inum, off, src);
    ResizeFills(l, f, f', inum, off, src, SizeAfter(f.inodes[inum].size, off, |src|));
    EndOthers(l, f, f', inum, off, src, SizeAfter(f.inodes[inum].size, off, |src|));
    if NoHoles(l, f, inum) {
      NoNewHoles(l, f, f', inum, off, src);
    }
    assert f'.inodes[inum := f'.inodes[inum].(size := f.inodes[inum].size)] == f'.inodes;
  }

  // ---- truncation, slot by slot ----

  /** done' has freed exactly slot s more than done. */
  ghost predicate FreesNext(done: Progress, done': Progress, s: nat) {
    !done.Freed(s) && forall t | 0 <= t < NSLOTS :: done'.Freed(t) <==> done.Freed(t) || t == s
  }

  /** Freeing an occupied slot: its block is still marked in use, and clearing it frees that slot alone. */
  lemma FreeOccupied(l: Layout, f: FS, inum: nat, bitmap: seq<bv8>, done: Progress, done': Progress, s: nat)
    requires Owned(l, f) && inum in f.inodes && |bitmap| == |f.bitmap| && s < NSLOTS
    requires KeepsBits(l, f, inum, bitmap, done) && FreesNext(done, done', s) && Addr(l, f, inum, s) != 0
    ensures Addr(l, f, inum, s) < l.size <= 8 * |bitmap|
    ensures Bit(bitmap, Addr(l, f, inum, s))
    ensures KeepsBits(l, f, inum, WithoutBit(bitmap, Addr(l, f, inum, s)), done')
  {
    var a := Addr(l, f, inum, s);
    forall b | 0 <= b < l.size
      ensures Bit(WithoutBit(bitmap, a), b) <==>
              b < l.nmeta || (b in f.owner && !(f.owner[b].inum == inum && done'.Freed(f.owner[b].s)))
    {
      WithoutBitTests(bitmap, a, b);
    }
  }

  lemma FreeEmpty(l: Layout, f: FS, inum: nat, bitmap: seq<bv8>, done: Progress, done': Progress, s: nat)
    requires Owned(l, f) && inum in f.inodes && |bitmap| == |f.bitmap| && s < NSLOTS
    requires KeepsBits(l, f, inum, bitmap, done) && FreesNext(done, done', s) && Addr(l, f, inum, s) == 0
    ensures KeepsBits(l, f, inum, bitmap, done')
  {
  }

  /** An absent indirect block has no entries to free. */
  lemma FreeNoIndirect(l: Layout, f: FS, inum: nat, bitmap: seq<bv8>)
    requires Owned(l, f) && inum in f.inodes && |bitmap| == |f.bitmap|
    requires KeepsBits(l, f, inum, bitmap, Progress(NDIRECT, 0, false)) && f.inodes[inum].addrs[NDIRECT] == 0
    ensures KeepsBits(l, f, inum, bitmap, Progress(NDIRECT, NINDIRECT, true))
  {
    forall b | b in f.owner && f.owner[b].inum == inum ensures f.owner[b].s < NDIRECT {
      assert Addr(l, f, inum, f.owner[b].s) == b;
    }
  }

  lemma TruncateOthers(l: Layout, f: FS, inum: nat, bitmap: seq<bv8>)
    requires Owned(l, f) && inum in f.inodes && |bitmap| == |f.bitmap|
    requires KeepsBits(l, f, inum, bitmap, Progress(NDIRECT, NINDIRECT, true))
    ensures var h := Truncated(f, inum, bitmap);
            Owned(l, h) && Content(l, h, inum) == [] && OthersSame(l, f, h, inum)
  {
    hide Owned, ByteAt, Content, KeepsBits;
    var h := Truncated(f, inum, bitmap);
    TruncateKeeps(l, f, inum, bitmap);
    OwnedShape(l, f);
    forall j | j in f.inodes && j != inum ensures Content(l, h, j) == Content(l, f, j) {
      var c := Content(l, f, j);
      forall k | 0 <= k < |c| ensures c[k] == ByteAt(l, h, j, k) {
        ContentAt(l, f, j, k);
      }
      ContentIs(l, h, j, c);
    }
  }

  /** The bits that truncation clears are those of the blocks the inode owned. */
  lemma TruncatedBits(l: Layout, f: FS, inum: nat, bitmap: seq<bv8>)
    requires Owned(l, f) && inum in f.inodes && |bitmap| == |f.bitmap|
    requires KeepsBits(l, f, inum, bitmap, Progress(NDIRECT, NINDIRECT, true))
    ensures forall b | 0 <= b < l.size ::
              Bit(bitmap, b) <==> Bit(f.bitmap, b) && !(b in f.owner && f.owner[b].inum == inum)
  {
    hide Bit;
  }

  lemma NothingFreed(l: Layout, f: FS, inum: nat)
    requires Owned(l, f)
    ensures KeepsBits(l, f, inum, f.bitmap, Progress(0, 0, false))
  {
  }

  // ---- the transactions of filewrite ----

  /** The state a transaction commits, and the blocks it has logged. */
  datatype Transaction = Transaction(after: FS, dinodes: map<nat, Inode>, logged: set<nat>)

  /** The first done bytes of src have been laid over the file, and no other file has changed. */
  ghost predicate Advanced(l: Layout, f: FS, f': FS, inum: nat, off: nat, src: seq<Byte>, done: nat) {
    && Owned(l, f) && Owned(l, f') && inum in f.inodes && inum in f'.inodes && done <= |src|
    && OthersSame(l, f, f', inum)
    && (done == 0 ==> Content(l, f', inum) == Content(l, f, inum))
    && (done > 0 ==> off <= |Content(l, f, inum)|
                     && Content(l, f', inum) == Splice(Content(l, f, inum), off, src[..done]))
  }

  predicate SameInode(d: map<nat, Inode>, d': map<nat, Inode>, i: nat) {
    (i in d <==> i in d') && (i in d && i in d' ==> d[i] == d'[i])
  }

  /** Every block of the disk that the transaction changes is one it logs. */
  ghost predicate Complete(l: Layout, f: FS, d: map<nat, Inode>, t: Transaction) {
    && Shape(l, f) && Shape(l, t.after) && OnlyLogged(l, f, t.after, t.logged)
    && forall i :: l.InodeBlock(i) in t.logged || SameInode(d, t.dinodes, i)
  }

  function StateAt(f: FS, ts: seq<Transaction>, k: nat): FS
    requires k <= |ts|
  {
    if k == 0 then f else ts[k - 1].after
  }

  function DinodesAt(d: map<nat, Inode>, ts: seq<Transaction>, k: nat): map<nat, Inode>
    requires k <= |ts|
  {
    if k == 0 then d else ts[k - 1].dinodes
  }

  /**
   The k-th transaction logs every block it changes, and commits the file with the first done bytes
   of the source laid over it. In a file without holes it keeps to its budget and leaves the inodes
   on disk up to date.
   */
  ghost predicate TransactionOk(l: Layout, f: FS, d: map<nat, Inode>, inum: nat, off: nat, src: seq<Byte>,
                                ts: seq<Transaction>, k: nat, done: nat)
    requires Owned(l, f) && inum in f.inodes && k < |ts|
  {
    && Complete(l, StateAt(f, ts, k), DinodesAt(d, ts, k), ts[k])
    && Advanced(l, f, ts[k].after, inum, off, src, done)
    && (NoHoles(l, f, inum) ==> NoHoles(l, ts[k].after, inum) && |ts[k].logged| <= 10)
    && (NoHoles(l, f, inum) && d == f.inodes ==> ts[k].dinodes == ts[k].after.inodes)
  }

  /** done[k] bytes of the source are written once the k-th transaction is. */
  ghost predicate Transactions(l: Layout, f: FS, d: map<nat, Inode>, inum: nat, off: nat, src: seq<Byte>,
                               ts: seq<Transaction>, done: seq<nat>) {
    && Owned(l, f) && inum in f.inodes && |done| == |ts|
    && forall k | 0 <= k < |ts| :: TransactionOk(l, f, d, inum, off, src, ts, k, done[k])
  }

  lemma TransactionsGrow(l: Layout, f: FS, d: map<nat, Inode>, inum: nat, off: nat, src: seq<Byte>,
                         ts: seq<Transaction>, done: seq<nat>, t: Transaction, n: nat)
    requires Transactions(l, f, d, inum, off, src, ts, done) && TransactionOk(l, f, d, inum, off, src, ts + [t], |ts|, n)
    ensures Transactions(l, f, d, inum, off, src, ts + [t], done + [n])
  {
    hide Owned, Complete, Advanced, NoHoles;
    forall k | 0 <= k < |ts + [t]| ensures TransactionOk(l, f, d, inum, off, src, ts + [t], k, (done + [n])[k]) {
      if k < |ts| {
        assert TransactionOk(l, f, d, inum, off, src, ts, k, done[k]);
      }
    }
  }

  lemma NotYetAdvanced(l: Layout, f: FS, inum: nat, off: nat, src: seq<Byte>)
    requires Owned(l, f) && inum in f.inodes
    ensures Advanced(l, f, f, inum, off, src, 0)
  {
  }

  /** One more chunk. */
  lemma AdvanceMore(l: Layout, f: FS, g: FS, h: FS, inum: nat, off: nat, src: seq<Byte>, i: nat, n: nat)
    requires Advanced(l, f, g, inum, off, src, i) && i + n <= |src| && Owned(l, h) && inum in h.inodes
    requires g.inodes[inum].size == SizeAfter(f.inodes[inum].size, off, i) && n > 0
    requires off + i <= g.inodes[inum].size
    requires OthersSame(l, g, h, inum)
    requires Content(l, h, inum) == Splice(Content(l, g, inum), off + i, src[i..i + n])
    ensures Advanced(l, f, h, inum, off, src, i + n)
  {
    hide Owned, Splice, Content, OthersSame;
    ContentLength(l, f, inum);
    ContentLength(l, g, inum);
    OthersTransitive(l, f, g, h, inum);
    if i == 0 {
      assert src[..0 + n] == src[0..0 + n];
    } else {
      SpliceTwice(Content(l, f, inum), off, src, i, n);
    }
  }

  lemma ContentLength(l: Layout, f: FS, i: nat)
    requires Owned(l, f) && i in f.inodes
    ensures |Content(l, f, i)| == f.inodes[i].size
  {
  }

  lemma OthersTransitive(l: Layout, f: FS, g: FS, h: FS, inum: nat)
    requires Owned(l, f) && Owned(l, g) && Owned(l, h)
    requires OthersSame(l, f, g, inum) && OthersSame(l, g, h, inum)
    ensures OthersSame(l, f, h, inum)
  {
    hide Owned, Content;
  }

  /** Two adjoining writes are one. */
  lemma SpliceTwice(c: seq<Byte>, off: nat, src: seq<Byte>, i: nat, n: nat)
    requires off <= |c| && i + n <= |src|
    ensures off + i <= |Splice(c, off, src[..i])|
    ensures Splice(Splice(c, off, src[..i]), off + i, src[i..i + n]) == Splice(c, off, src[..i + n])
  {
    assert src[..i + n] == src[..i] + src[i..i + n];
  }

  /** The bytes written when the k-th transaction of a call for n bytes is done. */
  function ChunksEnd(k: nat, n: int): int {
    if (k + 1) * MAXCHUNK < n then (k + 1) * MAXCHUNK else n
  }

  lemma NoTransactions(l: Layout, f: FS, d: map<nat, Inode>, inum: nat, off: nat, src: seq<Byte>)
    requires Owned(l, f) && inum in f.inodes
    ensures Transactions(l, f, d, inum, off, src, [], [])
  {
  }

  lemma OneMoreTransaction(l: Layout, f: FS, d: map<nat, Inode>, inum: nat, off: nat, src: seq<Byte>,
                           ts: seq<Transaction>, done: seq<nat>, t: Transaction, n: nat)
    requires Transactions(l, f, d, inum, off, src, ts, done)
    requires Complete(l, StateAt(f, ts, |ts|), DinodesAt(d, ts, |ts|), t)
    requires Advanced(l, f, t.after, inum, off, src, n)
    requires Owned(l, f) && inum in f.inodes
    requires NoHoles(l, f, inum) ==> NoHoles(l, t.after, inum) && |t.logged| <= 10
    requires NoHoles(l, f, inum) && d == f.inodes ==> t.dinodes == t.after.inodes
    ensures Transactions(l, f, d, inum, off, src, ts + [t], done + [n])
  {
    hide Owned, Complete, NoHoles, Transactions, OthersSame, Content, Splice;
    var us := ts + [t];
    assert StateAt(f, us, |ts|) == StateAt(f, ts, |ts|) && DinodesAt(d, us, |ts|) == DinodesAt(d, ts, |ts|);
    assert TransactionOk(l, f, d, inum, off, src, us, |ts|, n);
    hide TransactionOk, Advanced;
    TransactionsGrow(l, f, d, inum, off, src, ts, done, t, n);
  }

  /** A chunk's transaction logs all that it changes; a refused one changes nothing. */
  lemma ChunkComplete(l: Layout, f: FS, d: map<nat, Inode>, f': FS, d': map<nat, Inode>, inum: nat, off: nat, n: nat,
                      logged: set<nat>, refused: bool)
    requires Owned(l, f) && Owned(l, f') && inum in f.inodes && inum in f'.inodes
    requires refused ==> f' == f && d' == d
    requires !refused ==>
               && LogsAll(l, f, f', inum, off, n, logged)
               && (d' == d || (d' == d[inum := f'.inodes[inum]] && l.InodeBlock(inum) in logged))
    ensures Complete(l, f, d, Transaction(f', d', logged))
  {
    hide Owned, Addr, Bit;
    OwnedShape(l, f);
    OwnedShape(l, f');
  }

  lemma InSyncKept(l: Layout, f: FS, d: map<nat, Inode>, f': FS, d': map<nat, Inode>, inum: nat)
    requires Owned(l, f) && Owned(l, f') && inum in f.inodes && inum in f'.inodes && d == f.inodes
    requires OthersSame(l, f, f', inum) && (d' == d || d' == d[inum := f'.inodes[inum]]) && d'[inum] == f'.inodes[inum]
    ensures d' == f'.inodes
  {
    hide Owned, Content;
    assert d'.Keys == f'.inodes.Keys;
  }

  lemma OutIsFull(l: Layout, f: FS, f': FS, inum: nat, from: nat, end: nat)
    requires OutOfBlocks(l, f, f', inum, from, end)
    ensures Owned(l, f') && Shape(l, f') && Full(l, f'.bitmap)
  {
  }

  /** What holds between two transactions of filewrite: g and dg are the present state, i bytes have been written. */
  ghost predicate MidCall(l: Layout, f: FS, d: map<nat, Inode>, inum: nat, off: nat, src: seq<Byte>,
                           ts: seq<Transaction>, done: seq<nat>, g: FS, dg: map<nat, Inode>, i: nat) {
    && Transactions(l, f, d, inum, off, src, ts, done)
    && g == StateAt(f, ts, |ts|) && dg == DinodesAt(d, ts, |ts|)
    && Advanced(l, f, g, inum, off, src, i)
    && g.inodes[inum].size == SizeAfter(f.inodes[inum].size, off, i) && g.inodes[inum].kind == f.inodes[inum].kind
    && (i > 0 ==> off <= f.inodes[inum].size)
    && (NoHoles(l, f, inum) ==>
          && NoHoles(l, g, inum)
          && (d == f.inodes ==> dg == g.inodes)
          && (inum in d && d[inum] == f.inodes[inum] ==> inum in dg && dg[inum] == g.inodes[inum]))
  }

  /** src has been laid over the file from off on, and no other file has changed. */
  ghost predicate Extends(l: Layout, g: FS, h: FS, inum: nat, off: nat, src: seq<Byte>) {
    && Owned(l, g) && Owned(l, h) && inum in g.inodes && inum in h.inodes && off <= g.inodes[inum].size
    && OthersSame(l, g, h, inum)
    && Content(l, h, inum) == Splice(Content(l, g, inum), off, src)
    && h.inodes[inum] == g.inodes[inum].(addrs := h.inodes[inum].addrs, size := SizeAfter(g.inodes[inum].size, off, |src|))
  }

  /** What one transaction has done to the state g. */
  ghost predicate ChunkDone(l: Layout, g: FS, dg: map<nat, Inode>, inum: nat, t: Transaction) {
    && Owned(l, g) && Owned(l, t.after) && inum in g.inodes && inum in t.after.inodes
    && Complete(l, g, dg, t)
    && (NoHoles(l, g, inum) ==>
          && NoHoles(l, t.after, inum) && |t.logged| <= 10
          && (dg == g.inodes ==> t.dinodes == t.after.inodes)
          && (inum in dg && dg[inum] == g.inodes[inum] ==> inum in t.dinodes && t.dinodes[inum] == t.after.inodes[inum]))
  }

  lemma ProgressStarts(l: Layout, f: FS, d: map<nat, Inode>, inum: nat, off: nat, src: seq<Byte>)
    requires Owned(l, f) && inum in f.inodes
    ensures MidCall(l, f, d, inum, off, src, [], [], f, d, 0)
  {
    hide Owned, NoHoles, Advanced, Transactions;
    NotYetAdvanced(l, f, inum, off, src);
    NoTransactions(l, f, d, inum, off, src);
  }

  /** The n bytes of src from i on. */
  function Part(src: seq<Byte>, i: nat, n: nat): seq<Byte> {
    if i + n <= |src| then src[i..i + n] else []
  }

  /** n more bytes, from i up to m, are written at off + i by the transaction t. */
  lemma ProgressGoesOn(l: Layout, f: FS, d: map<nat, Inode>, inum: nat, off: nat, src: seq<Byte>,
                       ts: seq<Transaction>, done: seq<nat>, g: FS, dg: map<nat, Inode>, i: nat, n: nat, t: Transaction,
                       at: nat, m: nat)
    requires at == off + i && m == i + n && m <= |src| && n > 0
    requires Extends(l, g, t.after, inum, at, Part(src, i, n))
    requires MidCall(l, f, d, inum, off, src, ts, done, g, dg, i) && ChunkDone(l, g, dg, inum, t)
    ensures MidCall(l, f, d, inum, off, src, ts + [t], done + [m], t.after, t.dinodes, m)
  {
    hide Owned, NoHoles, Transactions, Complete, OthersSame, Content, Splice;
    AdvanceMore(l, f, g, t.after, inum, off, src, i, n);
    OneMoreTransaction(l, f, d, inum, off, src, ts, done, t, m);
  }

  lemma ProgressStops(l: Layout, f: FS, d: map<nat, Inode>, inum: nat, off: nat, src: seq<Byte>,
                      ts: seq<Transaction>, done: seq<nat>, g: FS, dg: map<nat, Inode>, i: nat, t: Transaction)
    requires MidCall(l, f, d, inum, off, src, ts, done, g, dg, i) && ChunkDone(l, g, dg, inum, t)
    requires t.after == g && t.dinodes == dg
    ensures MidCall(l, f, d, inum, off, src, ts + [t], done + [i], t.after, t.dinodes, i)
  {
    hide Owned, NoHoles, Transactions, Complete, Advanced;
    ProgressFacts(l, f, d, inum, off, src, ts, done, g, dg, i);
    OneMoreTransaction(l, f, d, inum, off, src, ts, done, t, i);
  }

  lemma ProgressFacts(l: Layout, f: FS, d: map<nat, Inode>, inum: nat, off: nat, src: seq<Byte>,
                      ts: seq<Transaction>, done: seq<nat>, g: FS, dg: map<nat, Inode>, i: nat)
    requires MidCall(l, f, d, inum, off, src, ts, done, g, dg, i)
    ensures Owned(l, f) && Owned(l, g) && inum in f.inodes && inum in g.inodes && |done| == |ts| && i <= |src|
    ensures g.inodes[inum].size == SizeAfter(f.inodes[inum].size, off, i) && g.inodes[inum].kind == f.inodes[inum].kind
    ensures i > 0 ==> off <= f.inodes[inum].size
  {
  }

  lemma ProgressTransactions(l: Layout, f: FS, d: map<nat, Inode>, inum: nat, off: nat, src: seq<Byte>,
                             ts: seq<Transaction>, done: seq<nat>, g: FS, dg: map<nat, Inode>, i: nat)
    requires MidCall(l, f, d, inum, off, src, ts, done, g, dg, i)
    ensures Transactions(l, f, d, inum, off, src, ts, done)
  {
  }

  /** A call for n bytes after k transactions: i bytes are written, done lists the progress of each. */
  ghost predicate Counted(n: int, i: nat, k: nat, done: seq<nat>) {
    && |done| == k && (i <= n || i == 0)
    && (n >= 0 ==> i == if k * MAXCHUNK < n then k * MAXCHUNK else n)
    && (k == 0 ==> i == 0)
    && (k > 0 ==> (k - 1) * MAXCHUNK < n && done[k - 1] == i)
    && forall j | 0 <= j < k :: done[j] == ChunksEnd(j, n)
  }

  lemma CountStart(n: int)
    ensures Counted(n, 0, 0, [])
  {
  }

  lemma CountNext(n: int, i: nat, k: nat, done: seq<nat>, n1: nat)
    requires Counted(n, i, k, done) && i < n && n1 == if n - i > MAXCHUNK then MAXCHUNK else n - i
    ensures n1 > 0 && Counted(n, i + n1, k + 1, done + [i + n1])
  {
  }

  /** The progress that a finished call reports. */
  ghost predicate Reported(n: int, refused: bool, done: seq<nat>) {
    forall k | 0 <= k < |done| :: done[k] == ChunksEnd(k, n) || (refused && k + 1 == |done| && done[k] == k * MAXCHUNK)
  }

  lemma CountEnd(n: int, i: nat, k: nat, done: seq<nat>)
    requires Counted(n, i, k, done)
    ensures Reported(n, false, done) && Reported(n, true, done) && i == (if k == 0 then 0 else done[k - 1])
    ensures i < n ==> Reported(n, true, done + [i])
    ensures i >= n >= 0 ==> i == n && k == (n + MAXCHUNK - 1) / MAXCHUNK
  {
  }
}
