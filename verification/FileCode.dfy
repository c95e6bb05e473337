/**
 The block and inode layers of fs.c as the kernel runs them, and the chunked filewrite of file.c.
 inodes is the in-memory copy of each inode, dinodes the copy on disk; logged is the set of block
 numbers passed to log_write so far in the current transaction.
 */
module FileCode {
  import opened Bytes
  import opened Common
  import opened Inodes
  import opened FileRoom
  import opened FileSpec

  const UINT: nat := WORD
  const T_FILE: int := 2
  const T_DEV: int := 3

  class FileSystem {
    const l: Layout
    var bitmap: seq<bv8>
    var blocks: seq<seq<Byte>>
    var inodes: map<nat, Inode>
    var dinodes: map<nat, Inode>
    ghost var owner: map<nat, Slot>
    ghost var logged: set<nat>
    /** the transactions ended so far */
    ghost var history: seq<Transaction>

    ghost function State(): FS
      reads this
    {
      FS(bitmap, blocks, inodes, owner)
    }

    ghost predicate Valid()
      reads this
    {
      Owned(l, State())
    }

    /** A newly made file system of empty files: the metadata blocks are in use and all others free. */
    constructor (l: Layout, inums: set<nat>)
      requires l.Valid()
      ensures Valid() && this.l == l && inodes.Keys == inums && dinodes == inodes && logged == {} && history == []
      ensures forall i | i in inums :: inodes[i].kind == T_FILE && Content(l, State(), i) == [] && NoHoles(l, State(), i)
    {
      hide Bit, WithBit, Owned, Content, NoHoles;
      this.l := l;
      blocks := seq(l.size, _ => Zeros());
      inodes := map i | i in inums :: Inode(T_FILE, 0, 0, 1, 0, NOADDRS);
      dinodes := map i | i in inums :: Inode(T_FILE, 0, 0, 1, 0, NOADDRS);
      owner, logged, history := map[], {}, [];
      var bits: seq<bv8> := seq(l.size / 8 + 1, _ => 0);
      forall c | 0 <= c < l.size ensures !Bit(bits, c) {
        ZeroBits(bits, c);
      }
      var b := 0;
      while b < l.nmeta
        invariant 0 <= b <= l.nmeta && l.size <= 8 * |bits|
        invariant forall c | 0 <= c < l.size :: Bit(bits, c) <==> c < b
      {
        forall c | 0 <= c < l.size ensures Bit(WithBit(bits, b), c) <==> c < b + 1 {
          WithBitTests(bits, b, c);
        }
        bits := WithBit(bits, b);
        b := b + 1;
      }
      bitmap := bits;
      new;
      NewFiles(l, State());
    }

    /** Find the first free block, mark it in use and zero it. */
    method BAlloc() returns (r: Outcome<nat>)
      requires Shape(l, State())
      modifies this`bitmap, this`blocks, this`logged
      ensures r.Panic? ==> bitmap == old(bitmap) && blocks == old(blocks) && logged == old(logged) && Full(l, bitmap)
      ensures r.Ok? ==>
                && r.value < l.size
                && !Bit(old(bitmap), r.value)
                && (forall b | 0 <= b < r.value :: Bit(old(bitmap), b))
                && bitmap == WithBit(old(bitmap), r.value)
                && blocks == old(blocks)[r.value := Zeros()]
                && logged == old(logged) + {l.BitmapBlock(r.value), r.value}
    {
      hide Shape, Bit, TestBit, SetBit, WithBit, Zeros;
      ShapeSizes(l, State());
      var b := 0;
      ghost var k := 0;
      while b < l.size
        invariant b == BPB * k
        invariant bitmap == old(bitmap) && blocks == old(blocks) && logged == old(logged)
        invariant forall c | 0 <= c < b && c < l.size :: Bit(bitmap, c)
        decreases l.size - b
      {
        var bi := 0;
        while bi < BPB && b + bi < l.size
          invariant 0 <= bi <= BPB && (bi == 0 || b + bi <= l.size)
          invariant bitmap == old(bitmap) && blocks == old(blocks) && logged == old(logged)
          invariant forall c | 0 <= c < b + bi && c < l.size :: Bit(bitmap, c)
        {
          BitPosition(l, bitmap, b, bi, k);
          var at := b / 8 + bi / 8;
          if !TestBit(bitmap[at], bi % 8) {
            bitmap := bitmap[at := SetBit(bitmap[at], bi % 8)];
            logged := logged + {l.BitmapBlock(b)};
            BZero(b + bi);
            return Ok(b + bi);
          }
          bi := bi + 1;
        }
        b, k := b + BPB, k + 1;
      }
      r := Panic("balloc: out of blocks");
    }

    method BZero(b: nat)
      requires b < |blocks|
      modifies this`blocks, this`logged
      ensures blocks == old(blocks)[b := Zeros()] && logged == old(logged) + {b}
    {
      blocks := blocks[b := Zeros()];
      logged := logged + {b};
    }

    method BFree(b: nat) returns (r: Outcome<()>)
      requires b < 8 * |bitmap|
      modifies this`bitmap, this`logged
      ensures r.Ok? <==> Bit(old(bitmap), b)
      ensures r.Ok? ==> bitmap == WithoutBit(old(bitmap), b) && logged == old(logged) + {l.BitmapBlock(b)}
    {
      if !TestBit(bitmap[b / 8], b % 8) {
        return Panic("freeing free block");
      }
      bitmap := bitmap[b / 8 := ClearBit(bitmap[b / 8], b % 8)];
      logged := logged + {l.BitmapBlock(b)};
      r := Ok(());
    }

    /** Copy the in-memory inode to disk. */
    method IUpdate(inum: nat)
      requires inum in inodes
      modifies this`dinodes, this`logged
      ensures dinodes == old(dinodes)[inum := inodes[inum]]
      ensures logged == old(logged) + {l.InodeBlock(inum)}
    {
      dinodes := dinodes[inum := inodes[inum]];
      logged := logged + {l.InodeBlock(inum)};
    }

    /** balloc for slot s of inode inum: the slot is filled and every file reads as before. */
    method AllocSlot(inum: nat, s: nat) returns (r: Outcome<nat>)
      requires Valid() && inum in inodes && s < NSLOTS && Addr(l, State(), inum, s) == 0
      requires s > NDIRECT ==> inodes[inum].addrs[NDIRECT] != 0
      modifies this`bitmap, this`blocks, this`inodes, this`owner, this`logged
      ensures r.Ok? ==>
                && CanFill(l, old(State()), inum, s, r.value)
                && (s > NDIRECT ==> old(inodes)[inum].addrs[NDIRECT] != r.value)
                && State() == WithSlot(l, old(State()), inum, s, r.value)
                && old(logged) + {l.BitmapBlock(r.value), r.value} <= logged
                && (s > NDIRECT ==> old(inodes)[inum].addrs[NDIRECT] in logged)
                && logged <= old(logged) + {l.BitmapBlock(r.value), r.value} + IndirectOf(inodes[inum], s)
      ensures r.Panic? ==> State() == old(State()) && logged == old(logged) && Full(l, bitmap)
    {
      ghost var f := State();
      r := BAlloc();
      if r.Panic? {
        return;
      }
      var b := r.value;
      FillShape(l, f, inum, s, b);
      owner := owner[b := Slot(inum, s)];
      var ip := inodes[inum];
      if s <= NDIRECT {
        inodes := inodes[inum := ip.(addrs := ip.addrs[s := b])];
      } else {
        var ind := ip.addrs[NDIRECT];
        blocks := blocks[ind := SetWord(blocks[ind], s - NDIRECT - 1, b)];
        logged := logged + {ind};
      }
    }

    /** bmap for a slot whose table is there: use its block or allocate one. */
    method MapSlot(inum: nat, bn: nat) returns (r: Outcome<nat>, ghost bitmaps: set<nat>)
      requires Valid() && inum in inodes && bn < MAXFILE
      requires bn >= NDIRECT ==> inodes[inum].addrs[NDIRECT] != 0
      modifies this`bitmap, this`blocks, this`inodes, this`owner, this`logged
      ensures Addr(l, old(State()), inum, DataSlot(bn)) != 0 ==> r.Ok?
      ensures r.Ok? ==> MapOutcome(l, old(State()), State(), inum, bn, r.value, old(logged), logged, bitmaps)
      ensures r.Panic? ==> State() == old(State()) && logged == old(logged) && Full(l, bitmap)
                           && Addr(l, State(), inum, DataSlot(bn)) == 0
    {
      hide Owned, WithSlot, MapOutcome, Full;
      ghost var f := State();
      OwnedShape(l, f);
      bitmaps := {};
      var addr := if bn < NDIRECT then inodes[inum].addrs[bn] else Word(blocks[inodes[inum].addrs[NDIRECT]], bn - NDIRECT);
      assert addr == Addr(l, f, inum, DataSlot(bn));
      if addr != 0 {
        OutcomeNone(l, f, inum, bn, logged);
        return Ok(addr), {};
      }
      r := AllocSlot(inum, DataSlot(bn));
      if r.Ok? {
        FillGrows(l, f, inum, DataSlot(bn), r.value);
        OwnedShape(l, State());
        OutcomeOne(l, f, inum, bn, r.value, old(logged), logged);
        bitmaps := {l.BitmapBlock(r.value)};
      }
    }

    /** The address of the bn-th block of the file, allocating it (and the indirect block) if need be. */
    method BMap(inum: nat, bn: nat) returns (r: Outcome<nat>, ghost bitmaps: set<nat>)
      requires Valid() && inum in inodes
      modifies this`bitmap, this`blocks, this`inodes, this`owner, this`logged
      ensures bn >= MAXFILE ==> r.Panic? && State() == old(State())
      ensures bn < MAXFILE && Addr(l, old(State()), inum, DataSlot(bn)) != 0 ==> r.Ok?
      ensures r.Ok? ==> MapOutcome(l, old(State()), State(), inum, bn, r.value, old(logged), logged, bitmaps)
      ensures r.Panic? && bn < MAXFILE ==> Stuck(l, old(State()), State(), inum, bn)
    {
      hide Owned, SameFiles, SameMeta, Grows, WithSlot, MapOutcome, LogsFills, Full;
      ghost var f := State();
      OwnedShape(l, f);
      bitmaps := {};
      if bn < NDIRECT {
        StuckAtOnce(l, f, inum, bn);
        r, bitmaps := MapSlot(inum, bn);
        return;
      }
      if bn - NDIRECT < NINDIRECT {
        StuckAtOnce(l, f, inum, bn);
        if inodes[inum].addrs[NDIRECT] != 0 {
          r, bitmaps := MapSlot(inum, bn);
          return;
        }
        var ind := AllocSlot(inum, NDIRECT);
        if ind.Panic? {
          return ind, {};
        }
        ghost var g, mid := State(), logged;
        MapsIndirect(l, f, inum, bn, ind.value);
        FillLogs(l, f, inum, NDIRECT, ind.value, mid);
        StuckAtOnce(l, g, inum, bn);
        r, bitmaps := MapSlot(inum, bn);
        if r.Ok? {
          OutcomeBoth(l, f, g, State(), inum, bn, r.value, l.BitmapBlock(ind.value), bitmaps, old(logged), mid, logged);
          bitmaps := bitmaps + {l.BitmapBlock(ind.value)};
        } else {
          StuckBoth(l, f, g, State(), inum, bn);
        }
        return;
      }
      r := Panic("bmap: out of range");
    }

    /** Read up to n bytes from off; -1 beyond the end or on overflow. */
    method ReadI(inum: nat, off: nat, n: nat) returns (r: Outcome<int>, dst: seq<Byte>)
      requires Valid() && inum in inodes && inodes[inum].kind != T_DEV && off < UINT && n < UINT
      modifies this`bitmap, this`blocks, this`inodes, this`owner, this`logged
      ensures off > old(inodes)[inum].size || off + n >= UINT ==> r == Ok(-1) && dst == [] && State() == old(State())
      ensures r.Ok? ==> Valid() && SameFiles(l, old(State()), State()) && SameMeta(old(State()), State())
      ensures r.Ok? && off <= old(inodes)[inum].size && off + n < UINT ==>
                && r.value == Min(n, old(inodes)[inum].size - off)
                && dst == Content(l, old(State()), inum)[off..off + r.value]
      ensures NoHoles(l, old(State()), inum) ==> r.Ok? && State() == old(State()) && logged == old(logged)
      // a hole in its way is filled, and reading succeeds exactly when there are blocks for all of them
      ensures off <= old(inodes)[inum].size && off + n < UINT ==>
                var end := off + Min(n, old(inodes)[inum].size - off);
                && (r.Ok? ==> FilledRange(l, old(State()), State(), inum, off, end))
                && (r.Panic? ==> OutOfBlocks(l, old(State()), State(), inum, off, end))
                && (r.Ok? <==> Roomy(l, old(State()), inum, off, end))
    {
      hide Owned, SameFiles, SameMeta, NoHoles, Content, Mapped, Addr, Shape, MapOutcome, Stuck, FilledRange, OutOfBlocks, Roomy, ReadLoop;
      ghost var f := State();
      FilesSameAsSelf(l, f);
      dst := [];
      var size := inodes[inum].size;
      if off > size || (off + n) % UINT < off {
        return Ok(-1), [];
      }
      var count := if off + n > size then size - off else n;
      ghost var noHoles := NoHoles(l, f, inum);
      ReadStarts(l, f, inum, off, count);
      var tot, o := 0, off;
      while tot < count
        invariant 0 <= tot <= count && o == off + tot && Valid() && inum in inodes
        invariant ReadLoop(l, f, State(), inum, off, count, tot, dst)
        invariant noHoles ==> State() == f && logged == old(logged)
        decreases count - tot
      {
        ghost var f1, logged1 := State(), logged;
        InFile(l, f, inum, o);
        var a, bms := BMap(inum, o / BSIZE);
        if noHoles {
          HoleFree(l, f, inum, o);
        }
        if a.Panic? {
          ReadStuck(l, f, f1, State(), inum, off, count, tot, dst);
          OutHadNone(l, f, State(), inum, off, off + count);
          return Panic("balloc: out of blocks"), [];
        }
        OutcomeMaps(l, f1, State(), inum, o / BSIZE, a.value, logged1, logged, bms);
        var m := Min(count - tot, BSIZE - o % BSIZE);
        ReadStep(l, f, f1, State(), inum, off, count, tot, a.value, dst);
        dst := dst + blocks[a.value][o % BSIZE..o % BSIZE + m];
        tot, o := tot + m, o + m;
      }
      ReadEnds(l, f, State(), inum, off, count, dst);
      r := Ok(count);
    }

    /** One turn of writei's loop: find the block of byte off + tot and copy as much as fits into it. */
    method WriteChunk(inum: nat, src: seq<Byte>, off: nat, tot: nat,
                      ghost f: FS, ghost was: set<nat>, ghost data: set<nat>, ghost bitmaps: set<nat>)
      returns (r: Outcome<nat>, ghost data': set<nat>, ghost bitmaps': set<nat>)
      requires WriteLoop(l, f, State(), inum, off, src, tot, was, logged, data, bitmaps) && tot < |src|
      requires Valid() && Owned(l, f) && inum in inodes && inum in f.inodes && LogsAll(l, f, State(), inum, off, tot, logged)
      modifies this`bitmap, this`blocks, this`inodes, this`owner, this`logged
      ensures r.Panic? ==> OutOfBlocks(l, f, State(), inum, off, off + |src|)
      ensures r.Ok? ==>
                && 0 < r.value <= |src| - tot && inum in inodes && Valid()
                && WriteLoop(l, f, State(), inum, off, src, tot + r.value, was, logged, data', bitmaps')
                && LogsAll(l, f, State(), inum, off, tot + r.value, logged)
    {
      hide Owned, SameFiles, SameMeta, Mapped, Addr, Shape, WriteLoop, Fills, IndirectOf, MapOutcome, LogsAll, LogsFills, Stuck, OutOfBlocks;
      var o := off + tot;
      ghost var f1, logged1 := State(), logged;
      WriteLoopOwned(l, f, f1, inum, off, src, tot, was, logged, data, bitmaps);
      var a, bms := BMap(inum, o / BSIZE);
      ghost var g, logged2 := State(), logged;
      data', bitmaps' := data, bitmaps;
      if a.Panic? {
        LoopStuck(l, f, f1, g, inum, off, src, tot, was, logged1, data, bitmaps);
        return Panic("balloc: out of blocks"), data', bitmaps';
      }
      OutcomeFacts(l, f1, g, inum, o / BSIZE, a.value, logged1, logged2, bms);
      MappedFacts(l, f1, g, inum, o / BSIZE, a.value);
      MappedBlock(l, f1, g, inum, o / BSIZE, a.value);
      var m := Min(|src| - tot, BSIZE - o % BSIZE);
      blocks := blocks[a.value := Patched(blocks[a.value], o % BSIZE, src[tot..tot + m])];
      logged := logged + {a.value};
      LoopLogs(l, f, f1, g, inum, a.value, off, src, tot, was, logged1, data, bitmaps, logged2, logged);
      WriteLoopStep(l, f, f1, g, inum, a.value, off, src, tot, was, logged1, data, bitmaps, bms, logged);
      return Ok(m), data + {a.value}, bitmaps + bms;
    }

    /** Lay src over the file from off, extending it if need be; -1 beyond the end, on overflow or past MAXFILE. */
    method WriteI(inum: nat, src: seq<Byte>, off: nat) returns (r: Outcome<int>)
      requires Valid() && inum in inodes && inodes[inum].kind != T_DEV && off < UINT && |src| < UINT
      modifies this`bitmap, this`blocks, this`inodes, this`owner, this`logged, this`dinodes
      ensures Refused(old(inodes)[inum].size, off, |src|) ==>
                r == Ok(-1) && State() == old(State()) && dinodes == old(dinodes) && logged == old(logged)
      ensures r.Ok? && !Refused(old(inodes)[inum].size, off, |src|) ==>
                && r.value == |src|
                && Valid()
                && inum in inodes
                && inodes[inum] == old(inodes)[inum].(addrs := inodes[inum].addrs,
                                                      size := SizeAfter(old(inodes)[inum].size, off, |src|))
                && Content(l, State(), inum) == Splice(Content(l, old(State()), inum), off, src)
                && OthersSame(l, old(State()), State(), inum)
                && (NoHoles(l, old(State()), inum) ==> NoHoles(l, State(), inum))
                && (off + |src| <= old(inodes)[inum].size ==> dinodes == old(dinodes))
                && (off + |src| > old(inodes)[inum].size ==> dinodes == old(dinodes)[inum := inodes[inum]])
                && (inodes[inum].addrs == old(inodes)[inum].addrs <==> !InodeHole(old(inodes)[inum], off, |src|))
                && (inum in old(dinodes) && old(dinodes)[inum] == old(inodes)[inum] ==>
                      (dinodes[inum] == inodes[inum] <==>
                       off + |src| > old(inodes)[inum].size || !InodeHole(old(inodes)[inum], off, |src|)))
                && (NoHoles(l, old(State()), inum) && inum in old(dinodes) && old(dinodes)[inum] == old(inodes)[inum] ==>
                      dinodes[inum] == inodes[inum])
                && (NoHoles(l, old(State()), inum) && |src| <= MAXCHUNK ==> |logged - old(logged)| <= 10)
                && FilledRange(l, old(State()), State(), inum, off, off + |src|)
                && LogsAll(l, old(State()), State(), inum, off, |src|, logged)
                && (off + |src| > old(inodes)[inum].size ==> l.InodeBlock(inum) in logged)
      ensures r.Panic? ==> OutOfBlocks(l, old(State()), State(), inum, off, off + |src|)
      // it succeeds exactly when there are blocks for the empty slots in its way
      ensures !Refused(old(inodes)[inum].size, off, |src|) ==> (r.Ok? <==> Roomy(l, old(State()), inum, off, off + |src|))
    {
      hide Owned, SameFiles, SameMeta, NoHoles, Content, ByteAt, Mapped, Addr, Shape, WriteLoop, Splice, InodeHole, OthersSame, Fills, IndirectOf,
        MapOutcome, LogsAll, Stuck, OutOfBlocks, FilledRange, Roomy;
      ghost var f := State();
      var size := inodes[inum].size;
      if off > size || (off + |src|) % UINT < off {
        return Ok(-1);
      }
      if off + |src| > MAXFILE * BSIZE {
        return Ok(-1);
      }
      var n := |src|;
      ghost var data, bitmaps := {}, {};
      WriteLoopStart(l, f, inum, off, src, logged);
      LogsStart(l, f, inum, off, logged);
      var tot, o := 0, off;
      while tot < n
        invariant 0 <= tot <= n && o == off + tot && inum in inodes && Valid()
        invariant LogsAll(l, f, State(), inum, off, tot, logged)
        invariant WriteLoop(l, f, State(), inum, off, src, tot, old(logged), logged, data, bitmaps)
        invariant dinodes == old(dinodes)
        decreases n - tot
      {
        var m, data', bitmaps' := WriteChunk(inum, src, off, tot, f, old(logged), data, bitmaps);
        if m.Panic? {
          OutHadNone(l, f, State(), inum, off, off + n);
          return Panic(m.why);
        }
        data, bitmaps := data', bitmaps';
        tot, o := tot + m.value, o + m.value;
      }
      WriteEnd(l, f, State(), inum, off, src, old(logged), logged, data, bitmaps);
      WrittenHadRoom(l, f, State(), inum, off, src, old(logged), logged, data, bitmaps);
      if NoHoles(l, f, inum) && n <= MAXCHUNK {
        WriteLoopBudget(l, f, State(), inum, off, src, old(logged), logged, data, bitmaps, l.InodeBlock(inum));
      }
      if NoHoles(l, f, inum) && off + n <= size {
        NoHoleNoChange(l, f, inum, off, n);
      }
      ResizeLogs(l, f, State(), inum, off, n, logged, l.InodeBlock(inum), SizeAfter(size, off, n));
      if n > 0 && o > inodes[inum].size {
        inodes := inodes[inum := inodes[inum].(size := o)];
        IUpdate(inum);
      }
      r := Ok(n);
    }

    /** The part of itrunc that frees the direct blocks. */
    method FreeDirect(inum: nat, ghost f: FS)
      requires Owned(l, f) && State() == f && inum in inodes
      requires KeepsBits(l, f, inum, bitmap, Progress(0, 0, false))
      modifies this`bitmap, this`inodes, this`logged
      ensures |bitmap| == |f.bitmap| && KeepsBits(l, f, inum, bitmap, Progress(NDIRECT, 0, false))
      ensures |f.inodes[inum].addrs| == NDIRECT + 1
      ensures var ip := f.inodes[inum];
              inodes == f.inodes[inum := ip.(addrs := NOADDRS[NDIRECT := ip.addrs[NDIRECT]])]
    {
      hide WithoutBit, Bit, KeepsBits, Owned;
      OwnedShape(l, f);
      ghost var ip := inodes[inum];
      var i := 0;
      while i < NDIRECT
        invariant 0 <= i <= NDIRECT && |bitmap| == |f.bitmap| && blocks == f.blocks
        invariant KeepsBits(l, f, inum, bitmap, Progress(i, 0, false))
        invariant inum in inodes && |inodes[inum].addrs| == NDIRECT + 1
        invariant forall t | 0 <= t <= NDIRECT :: inodes[inum].addrs[t] == if t < i then 0 else ip.addrs[t]
        invariant inodes == f.inodes[inum := ip.(addrs := inodes[inum].addrs)]
      {
        assert Addr(l, f, inum, i) == inodes[inum].addrs[i];
        if inodes[inum].addrs[i] != 0 {
          FreeOccupied(l, f, inum, bitmap, Progress(i, 0, false), Progress(i + 1, 0, false), i);
          var r := BFree(inodes[inum].addrs[i]);
          assert r.Ok?;
          inodes := inodes[inum := inodes[inum].(addrs := inodes[inum].addrs[i := 0])];
        } else {
          FreeEmpty(l, f, inum, bitmap, Progress(i, 0, false), Progress(i + 1, 0, false), i);
        }
        i := i + 1;
      }
      assert inodes[inum].addrs == NOADDRS[NDIRECT := ip.addrs[NDIRECT]];
    }

    /** The part of itrunc that frees the blocks listed in the indirect block. */
    method FreeEntries(inum: nat, ind: nat, ghost f: FS)
      requires Owned(l, f) && inum in f.inodes && l.size <= |blocks| && |bitmap| == |f.bitmap| && blocks == f.blocks
      requires ind == f.inodes[inum].addrs[NDIRECT] && ind != 0
      requires KeepsBits(l, f, inum, bitmap, Progress(NDIRECT, 0, false))
      modifies this`bitmap, this`logged
      ensures |bitmap| == |f.bitmap| && KeepsBits(l, f, inum, bitmap, Progress(NDIRECT, NINDIRECT, false))
    {
      hide WithoutBit, Bit, KeepsBits, Owned;
      OwnedShape(l, f);
      var j := 0;
      while j < NINDIRECT
        invariant 0 <= j <= NINDIRECT && |bitmap| == |f.bitmap|
        invariant KeepsBits(l, f, inum, bitmap, Progress(NDIRECT, j, false))
      {
        var a := Word(blocks[ind], j);
        assert Addr(l, f, inum, NDIRECT + 1 + j) == a;
        if a != 0 {
          FreeOccupied(l, f, inum, bitmap, Progress(NDIRECT, j, false), Progress(NDIRECT, j + 1, false), NDIRECT + 1 + j);
          var r := BFree(a);
          assert r.Ok?;
        } else {
          FreeEmpty(l, f, inum, bitmap, Progress(NDIRECT, j, false), Progress(NDIRECT, j + 1, false), NDIRECT + 1 + j);
        }
        j := j + 1;
      }
    }

    /** The part of itrunc that frees the indirect block, after the blocks it lists. */
    method FreeIndirect(inum: nat, ghost f: FS)
      requires Owned(l, f) && inum in f.inodes && |f.inodes[inum].addrs| == NDIRECT + 1
      requires |bitmap| == |f.bitmap| && blocks == f.blocks && inum in inodes
      requires KeepsBits(l, f, inum, bitmap, Progress(NDIRECT, 0, false))
      requires inodes[inum].addrs == NOADDRS[NDIRECT := f.inodes[inum].addrs[NDIRECT]]
      modifies this`bitmap, this`inodes, this`logged
      ensures |bitmap| == |f.bitmap| && KeepsBits(l, f, inum, bitmap, Progress(NDIRECT, NINDIRECT, true))
      ensures inodes == old(inodes)[inum := old(inodes)[inum].(addrs := NOADDRS)]
    {
      hide WithoutBit, Bit, KeepsBits, Owned;
      OwnedShape(l, f);
      var ind := inodes[inum].addrs[NDIRECT];
      if ind != 0 {
        FreeEntries(inum, ind, f);
        assert Addr(l, f, inum, NDIRECT) == ind;
        FreeOccupied(l, f, inum, bitmap, Progress(NDIRECT, NINDIRECT, false), Progress(NDIRECT, NINDIRECT, true), NDIRECT);
        var r := BFree(ind);
        assert r.Ok?;
        inodes := inodes[inum := inodes[inum].(addrs := inodes[inum].addrs[NDIRECT := 0])];
      } else {
        FreeNoIndirect(l, f, inum, bitmap);
      }
      assert inodes[inum].addrs == NOADDRS;
    }

    /** Discard the file: exactly its blocks become free, and the empty inode is written back. */
    method ITrunc(inum: nat)
      requires Valid() && inum in inodes
      modifies this`bitmap, this`inodes, this`owner, this`logged, this`dinodes
      ensures Valid() && State() == Truncated(old(State()), inum, bitmap)
      ensures Content(l, State(), inum) == [] && OthersSame(l, old(State()), State(), inum)
      ensures |bitmap| == |old(bitmap)|
      ensures forall b | 0 <= b < l.size ::
                Bit(bitmap, b) <==> Bit(old(bitmap), b) && !(b in old(owner) && old(owner)[b].inum == inum)
      ensures dinodes == old(dinodes)[inum := inodes[inum]]
    {
      hide Content, OthersSame, Bit, KeepsBits, Owned, OthersOwn;
      ghost var f := State();
      OwnedShape(l, f);
      NothingFreed(l, f, inum);
      FreeDirect(inum, f);
      FreeIndirect(inum, f);
      inodes := inodes[inum := inodes[inum].(size := 0)];
      owner := OthersOwn(f, inum);
      assert State() == Truncated(f, inum, bitmap);
      TruncateOthers(l, f, inum, bitmap);
      TruncatedBits(l, f, inum, bitmap);
      IUpdate(inum);
    }

    ghost method BeginOp()
      modifies this`logged
      ensures logged == {}
    {
      logged := {};
    }

    ghost method EndOp()
      modifies this`history
      ensures history == old(history) + [Transaction(State(), dinodes, logged)]
    {
      history := history + [Transaction(State(), dinodes, logged)];
    }

    /** One pass of filewrite: a chunk in a transaction of its own. */
    method WriteOneChunk(inum: nat, src: seq<Byte>, off: nat) returns (r: Outcome<int>)
      requires Valid() && inum in inodes && inodes[inum].kind != T_DEV && off < UINT && |src| <= MAXCHUNK
      modifies this`bitmap, this`blocks, this`inodes, this`owner, this`logged, this`dinodes, this`history
      ensures r.Panic? ==> history == old(history) && Owned(l, State()) && Full(l, bitmap)
      ensures r.Ok? ==>
                && Valid() && inum in inodes
                && history == old(history) + [Transaction(State(), dinodes, logged)]
                && ChunkDone(l, old(State()), old(dinodes), inum, Transaction(State(), dinodes, logged))
      ensures r.Ok? && Refused(old(inodes)[inum].size, off, |src|) ==> r.value == -1 && State() == old(State()) && dinodes == old(dinodes)
      ensures r.Ok? && !Refused(old(inodes)[inum].size, off, |src|) ==>
                && r.value == |src| && Extends(l, old(State()), State(), inum, off, src)
                && FilledRange(l, old(State()), State(), inum, off, off + |src|)
      ensures r.Panic? ==> OutOfBlocks(l, old(State()), State(), inum, off, off + |src|)
    {
      hide Owned, Content, ByteAt, Addr, Shape, NoHoles, Splice, OthersSame, InodeHole, LogsAll, FilledRange, OutOfBlocks, OnlyLogged, Full;
      ghost var f, d := State(), dinodes;
      OwnedShape(l, f);
      BeginOp();
      r := WriteI(inum, src, off);
      if r.Panic? {
        OutIsFull(l, f, State(), inum, off, off + |src|);
        return;
      }
      OwnedShape(l, State());
      assert logged - {} == logged;
      ghost var refused := Refused(f.inodes[inum].size, off, |src|);
      ChunkComplete(l, f, d, State(), dinodes, inum, off, |src|, logged, refused);
      if !refused && NoHoles(l, f, inum) && d == f.inodes {
        InSyncKept(l, f, d, State(), dinodes, inum);
      }
      EndOp();
    }

    /** One turn of filewrite's loop, which began with f and d and has written i bytes in the transactions ts. */
    method WriteNext(inum: nat, off: nat, addr: seq<Byte>, i: nat, n1: nat,
                     ghost f: FS, ghost d: map<nat, Inode>, ghost ts: seq<Transaction>, ghost done: seq<nat>)
      returns (r: Outcome<int>, ghost t: Transaction)
      requires Valid() && inum in inodes && inodes[inum].kind != T_DEV && 0 < n1 <= MAXCHUNK && i + n1 <= |addr| && off + i < UINT
      requires Owned(l, f) && MidCall(l, f, d, inum, off, addr, ts, done, State(), dinodes, i)
      requires FilledRange(l, f, State(), inum, off, off + i)
      modifies this`bitmap, this`blocks, this`inodes, this`owner, this`logged, this`dinodes, this`history
      ensures r.Panic? ==>
                && history == old(history) && Transactions(l, f, d, inum, off, addr, ts, done)
                && Owned(l, State()) && Full(l, bitmap) && OutOfBlocks(l, f, State(), inum, off, off + i + n1)
      ensures r.Ok? ==> Valid() && inum in inodes && history == old(history) + [t]
      ensures r.Ok? ==> (if Refused(old(inodes)[inum].size, off + i, n1) then r.value == -1 else r.value == n1)
      ensures r.Ok? ==> var i' := if r.value < 0 then i else i + n1;
                        && MidCall(l, f, d, inum, off, addr, ts + [t], done + [i'], State(), dinodes, i')
                        && FilledRange(l, f, State(), inum, off, off + i')
    {
      hide Owned, Shape, Extends, ChunkDone, Transactions, MidCall, Full, FilledRange, OutOfBlocks;
      ghost var g, dg := State(), dinodes;
      r := WriteOneChunk(inum, addr[i..i + n1], off + i);
      t := Transaction(State(), dinodes, logged);
      if r.Panic? {
        ProgressTransactions(l, f, d, inum, off, addr, ts, done, g, dg, i);
        OutLater(l, f, g, State(), inum, off, i, n1, off + i + n1);
      } else if r.value < 0 {
        ProgressStops(l, f, d, inum, off, addr, ts, done, g, dg, i, t);
      } else {
        ProgressGoesOn(l, f, d, inum, off, addr, ts, done, g, dg, i, n1, t, off + i, i + n1);
        RangesJoin(l, f, g, State(), inum, off, i, n1);
      }
    }

    /**
     Write n bytes at the file's offset, a few blocks per transaction. Returns n, or -1 if some
     chunk was refused. ts are the transactions of this call, and done[k] the number of bytes
     written once the k-th of them is.
     */
    method FileWrite(inum: nat, off: nat, addr: seq<Byte>, n: int)
      returns (r: Outcome<int>, off': nat, ghost ts: seq<Transaction>, ghost done: seq<nat>)
      requires Valid() && inum in inodes && inodes[inum].kind != T_DEV && n <= |addr| && |addr| < UINT && off < UINT
      modifies this`bitmap, this`blocks, this`inodes, this`owner, this`logged, this`dinodes, this`history
      ensures history == old(history) + ts && Transactions(l, old(State()), old(dinodes), inum, off, addr, ts, done)
      ensures Reported(n, r == Ok(-1), done)
      ensures r.Ok? ==>
                && Valid() && off <= off' <= off + |addr|
                && MidCall(l, old(State()), old(dinodes), inum, off, addr, ts, done, State(), dinodes, off' - off)
                && off' == off + (if ts == [] then 0 else done[|ts| - 1])
                && (r.value == n || r.value == -1)
                && (r.value == n >= 0 ==> off' == off + n && |ts| == (n + MAXCHUNK - 1) / MAXCHUNK)
                && (n >= 0 && off <= old(inodes)[inum].size && off + n <= MAXFILE * BSIZE ==> r.value == n)
      // no free block is left
      ensures r.Panic? ==> Owned(l, State()) && Full(l, bitmap)
      // a call within the limits succeeds exactly when there are blocks for all it needs
      ensures 0 <= n && off <= old(inodes)[inum].size && off + n <= MAXFILE * BSIZE ==>
                (r.Ok? <==> Roomy(l, old(State()), inum, off, off + n))
    {
      hide Owned, Shape, Extends, ChunkDone, Transactions, MidCall, Full, Counted, Reported, FilledRange, OutOfBlocks, Roomy;
      ghost var f, d := State(), dinodes;
      OwnedShape(l, f);
      ProgressStarts(l, f, d, inum, off, addr);
      var max := MAXCHUNK;
      var i := 0;
      off' := off;
      r := Ok(0);
      ts, done := [], [];
      CountStart(n);
      NothingFilled(l, f, inum, off);
      while i < n
        invariant 0 <= i && (i <= n || i == 0) && off' == off + i && (i > 0 ==> off' <= MAXFILE * BSIZE)
        invariant Counted(n, i, |ts|, done)
        invariant Valid() && history == old(history) + ts
        invariant MidCall(l, f, d, inum, off, addr, ts, done, State(), dinodes, i)
        invariant FilledRange(l, f, State(), inum, off, off + i)
        decreases n - i
      {
        var n1 := if n - i > max then max else n - i;
        ProgressFacts(l, f, d, inum, off, addr, ts, done, State(), dinodes, i);
        CountEnd(n, i, |ts|, done);
        CountNext(n, i, |ts|, done, n1);
        ghost var t;
        r, t := WriteNext(inum, off, addr, i, n1, f, d, ts, done);
        if r.Panic? {
          OutSooner(l, f, State(), inum, off, off + i + n1, off + n);
          OutHadNone(l, f, State(), inum, off, off + n);
          return;
        }
        ts := ts + [t];
        if r.value < 0 {
          done := done + [i];
          ProgressTransactions(l, f, d, inum, off, addr, ts, done, State(), dinodes, i);
          return Ok(-1), off', ts, done;
        }
        done := done + [i + n1];
        i := i + r.value;
        off' := off' + r.value;
      }
      CountEnd(n, i, |ts|, done);
      if n >= 0 {
        FilledHadRoom(l, f, State(), inum, off, off + n);
      }
      ProgressFacts(l, f, d, inum, off, addr, ts, done, State(), dinodes, i);
      ProgressTransactions(l, f, d, inum, off, addr, ts, done, State(), dinodes, i);
      r := Ok(if i == n then n else -1);
    }
  }

  lemma ShapeSizes(l: Layout, f: FS)
    requires Shape(l, f)
    ensures l.size <= 8 * |f.bitmap| && |f.blocks| == l.size
  {
  }

  /** Where balloc looks for the bit of block b + bi, b being the first block of the k-th bitmap block. */
  lemma BitPosition(l: Layout, bitmap: seq<bv8>, b: nat, bi: nat, k: nat)
    requires b == BPB * k && bi < BPB && b + bi < 8 * |bitmap|
    ensures var at := b / 8 + bi / 8;
            && at < |bitmap|
            && Bit(bitmap, b + bi) == TestBit(bitmap[at], bi % 8)
            && WithBit(bitmap, b + bi) == bitmap[at := SetBit(bitmap[at], bi % 8)]
    ensures l.BitmapBlock(b + bi) == l.BitmapBlock(b)
  {
    hide TestBit, SetBit;
    assert b / 8 == BSIZE * k;
    assert b + bi == 8 * (BSIZE * k + bi / 8) + bi % 8;
  }

  lemma FilesSameAsSelf(l: Layout, f: FS)
    requires Owned(l, f)
    ensures SameFiles(l, f, f) && SameMeta(f, f)
  {
  }

  lemma FilesTransitive(l: Layout, f: FS, g: FS, h: FS)
    requires Owned(l, f) && Owned(l, g) && Owned(l, h)
    requires SameFiles(l, f, g) && SameMeta(f, g) && SameFiles(l, g, h) && SameMeta(g, h)
    ensures SameFiles(l, f, h) && SameMeta(f, h)
  {
    hide Owned, ByteAt;
  }

  lemma MappedFacts(l: Layout, f: FS, g: FS, inum: nat, bn: nat, addr: nat)
    requires Mapped(l, f, g, inum, bn, addr)
    ensures Owned(l, g) && Shape(l, g) && SameFiles(l, f, g) && SameMeta(f, g) && inum in g.inodes
    ensures 0 < addr < l.size
  {
    MappedInRange(l, f, g, inum, bn, addr);
  }

  /** Without holes, every byte below the size has a block. */
  lemma HoleFree(l: Layout, f: FS, inum: nat, o: nat)
    requires Owned(l, f) && inum in f.inodes && NoHoles(l, f, inum) && o < f.inodes[inum].size
    ensures Shape(l, f) && o / BSIZE < MAXFILE && Addr(l, f, inum, DataSlot(o / BSIZE)) != 0
  {
  }

  /** The bytes readi copies out of one block are the file's. */
  lemma ReadChunk(l: Layout, f: FS, f1: FS, g: FS, inum: nat, o: nat, m: nat, addr: nat)
    requires Owned(l, f) && Owned(l, f1) && SameFiles(l, f, f1) && inum in f.inodes
    requires Mapped(l, f1, g, inum, o / BSIZE, addr) && addr < l.size
    requires o % BSIZE + m <= BSIZE && o + m <= f.inodes[inum].size
    ensures Shape(l, g) && g.blocks[addr][o % BSIZE..o % BSIZE + m] == Content(l, f, inum)[o..o + m]
  {
    hide Owned, Content, ByteAt;
    OwnedShape(l, f);
    OwnedShape(l, g);
    var bytes, c := g.blocks[addr][o % BSIZE..o % BSIZE + m], Content(l, f, inum)[o..o + m];
    forall k | 0 <= k < m ensures bytes[k] == c[k] {
      ContentAt(l, f, inum, o + k);
      WithinBlock(o, m, o + k);
      ByteInBlock(l, g, inum, o + k, addr);
    }
  }

  /** The two reasons writei returns -1 for a file: an offset beyond the end, or a size beyond MAXFILE blocks. */
  predicate Refused(size: nat, off: nat, n: nat) {
    off > size || off + n > MAXFILE * BSIZE
  }

  /** The invariant of readi's loop: what has been read, and which holes have been filled. */
  ghost predicate ReadLoop(l: Layout, f: FS, f': FS, inum: nat, off: nat, count: nat, tot: nat, dst: seq<Byte>) {
    && Owned(l, f) && Owned(l, f') && inum in f.inodes && inum in f'.inodes
    && SameFiles(l, f, f') && SameMeta(f, f')
    && tot <= count && off + count <= f.inodes[inum].size && (tot == 0 || tot == count || (off + tot) % BSIZE == 0)
    && FilledRange(l, f, f', inum, off, off + tot)
    && dst == Content(l, f, inum)[off..off + tot]
  }

  lemma InFile(l: Layout, f: FS, inum: nat, o: nat)
    requires Owned(l, f) && inum in f.inodes && o < f.inodes[inum].size
    ensures o / BSIZE < MAXFILE
  {
  }

  lemma ReadStarts(l: Layout, f: FS, inum: nat, off: nat, count: nat)
    requires Owned(l, f) && inum in f.inodes && off + count <= f.inodes[inum].size
    ensures ReadLoop(l, f, f, inum, off, count, 0, [])
  {
    hide Owned, SameFiles, SameMeta, FilledRange;
    FilesSameAsSelf(l, f);
    NothingFilled(l, f, inum, off);
  }

  lemma ReadStep(l: Layout, f: FS, f1: FS, g: FS, inum: nat, off: nat, count: nat, tot: nat, addr: nat, dst: seq<Byte>)
    requires ReadLoop(l, f, f1, inum, off, count, tot, dst) && tot < count
    requires Mapped(l, f1, g, inum, (off + tot) / BSIZE, addr)
    ensures var o := off + tot;
            var m := Min(count - tot, BSIZE - o % BSIZE);
            && Owned(l, g) && inum in g.inodes && addr < |g.blocks| && o % BSIZE + m <= |g.blocks[addr]| && m > 0
            && ReadLoop(l, f, g, inum, off, count, tot + m, dst + g.blocks[addr][o % BSIZE..o % BSIZE + m])
  {
    hide Owned, SameFiles, SameMeta, FilledRange, Mapped, Content;
    var o := off + tot;
    var m := Min(count - tot, BSIZE - o % BSIZE);
    MappedFacts(l, f1, g, inum, o / BSIZE, addr);
    RangeStep(l, f, f1, g, inum, addr, off, count, tot);
    ReadChunk(l, f, f1, g, inum, o, m, addr);
    FilesTransitive(l, f, f1, g);
    ContentLength(l, f, inum);
    SliceJoin(Content(l, f, inum), off, o, o + m);
  }

  lemma ReadStuck(l: Layout, f: FS, f1: FS, g: FS, inum: nat, off: nat, count: nat, tot: nat, dst: seq<Byte>)
    requires ReadLoop(l, f, f1, inum, off, count, tot, dst) && tot < count && Stuck(l, f1, g, inum, (off + tot) / BSIZE)
    ensures OutOfBlocks(l, f, g, inum, off, off + count)
  {
    hide Owned, SameFiles, SameMeta, FilledRange, Stuck, OutOfBlocks, Content;
    RangeStuck(l, f, f1, g, inum, off, count, tot);
  }

  lemma ReadEnds(l: Layout, f: FS, f': FS, inum: nat, off: nat, count: nat, dst: seq<Byte>)
    requires ReadLoop(l, f, f', inum, off, count, count, dst)
    ensures Owned(l, f) && Owned(l, f') && inum in f.inodes && Shape(l, f) && SameFiles(l, f, f') && SameMeta(f, f')
    ensures FilledRange(l, f, f', inum, off, off + count) && Roomy(l, f, inum, off, off + count)
    ensures off + count <= |Content(l, f, inum)| && dst == Content(l, f, inum)[off..off + count]
  {
    hide Owned, SameFiles, SameMeta, FilledRange, Content, Roomy;
    FilledHadRoom(l, f, f', inum, off, off + count);
    ContentLength(l, f, inum);
  }

  lemma SliceJoin(c: seq<Byte>, a: nat, b: nat, d: nat)
    requires a <= b <= d <= |c|
    ensures c[a..b] + c[b..d] == c[a..d]
  {
  }
}
