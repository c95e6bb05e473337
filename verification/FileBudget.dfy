/**
 The budget of a transaction is tight: a disk on which one chunk of filewrite has to log exactly
 MAXOPBLOCKS blocks. The chunk starts inside the last direct block of a file without an indirect
 block, and the only four free blocks are spread over four bitmap blocks.
 */
module FileBudget {
  import opened Bytes
  import opened Common
  import opened Inodes
  import opened FileSpec
  import opened FileCode
  import opened FileRoom

  /** The chunk starts in the middle of block 11 and ends in block 14. */
  const OFF: nat := 11 * 512 + 256

  /** The only free blocks are those of fr, each in a bitmap block of its own. */
  ghost predicate Scattered(l: Layout, f: FS, fr: seq<nat>)
    requires Shape(l, f)
  {
    && |fr| == 4
    && (forall i | 0 <= i < 4 :: fr[i] < l.size && l.BitmapBlock(fr[i]) < l.nmeta)
    && (forall i, j | 0 <= i < j < 4 :: l.BitmapBlock(fr[i]) != l.BitmapBlock(fr[j]))
    && (forall b | 0 <= b < l.size :: Bit(f.bitmap, b) || b in fr)
    && (forall i | 0 <= i < 4 :: !Bit(f.bitmap, fr[i]))
  }

  ghost predicate Tight(l: Layout, f: FS, inum: nat, fr: seq<nat>) {
    && Owned(l, f) && inum in f.inodes && NoHoles(l, f, inum) && Scattered(l, f, fr)
    && f.inodes[inum].size == OFF && f.inodes[inum].addrs[NDIRECT] == 0 && f.inodes[inum].addrs[11] != 0
    && l.InodeBlock(inum) < l.nmeta
    && (forall i | 0 <= i < 4 :: l.InodeBlock(inum) != l.BitmapBlock(fr[i]))
  }

  lemma TouchedHere(t: nat)
    requires t < NSLOTS
    ensures Touched(t, OFF, OFF + MAXCHUNK) <==> 11 <= t <= 15
  {
  }

  /** The four slots that a chunk fills take the four free blocks. */
  lemma TakesAllFour(a: seq<nat>, fr: seq<nat>)
    requires |a| == 4 && |fr| == 4 && (forall i | 0 <= i < 4 :: a[i] in fr)
    requires forall i, j | 0 <= i < j < 4 :: a[i] != a[j]
    ensures forall i | 0 <= i < 4 :: fr[i] in a
  {
    assert fr == [fr[0], fr[1], fr[2], fr[3]];
    assert a == [a[0], a[1], a[2], a[3]];
  }

  /** The k-th of the slots that the chunk fills: the indirect block and its first three entries. */
  ghost function Gained(l: Layout, f: FS, inum: nat, k: nat): nat
    requires Shape(l, f) && inum in f.inodes && k < 4
  {
    Addr(l, f, inum, 12 + k)
  }

  lemma EmptySlot(l: Layout, f: FS, inum: nat, fr: seq<nat>, k: nat)
    requires Tight(l, f, inum, fr) && k < 4
    ensures Shape(l, f) && Addr(l, f, inum, 12 + k) == 0
  {
    hide Bit, NoHoles, Scattered;
  }

  lemma FilledSlot(l: Layout, f: FS, f': FS, inum: nat, fr: seq<nat>, logged: set<nat>, k: nat)
    requires Tight(l, f, inum, fr) && Owned(l, f') && inum in f'.inodes && k < 4
    requires FilledRange(l, f, f', inum, OFF, OFF + MAXCHUNK) && LogsFills(l, f, f', inum, logged)
    ensures Shape(l, f')
    ensures var a := Gained(l, f', inum, k);
            a in fr && a in logged && l.BitmapBlock(a) in logged && a in f'.owner && f'.owner[a] == Slot(inum, 12 + k)
  {
    hide Touched, Addr, Bit, NoHoles;
    TouchedHere(12 + k);
    EmptySlot(l, f, inum, fr, k);
    GainedWasFree(l, f, f', inum, OFF, OFF + MAXCHUNK, 12 + k);
  }

  lemma OwnedBlock(l: Layout, f: FS, inum: nat, s: nat)
    requires Owned(l, f) && inum in f.inodes && s < NDIRECT
    ensures Shape(l, f) && |f.inodes[inum].addrs| == NDIRECT + 1
    ensures var a := f.inodes[inum].addrs[s];
            Addr(l, f, inum, s) == a && (a != 0 ==> l.nmeta <= a < l.size <= 8 * |f.bitmap| && Bit(f.bitmap, a))
  {
    hide Bit;
  }

  /** The last direct block is in use, and stays where it is. */
  lemma LastDirect(l: Layout, f: FS, f': FS, inum: nat, fr: seq<nat>, logged: set<nat>)
    requires Tight(l, f, inum, fr) && Owned(l, f') && inum in f'.inodes
    requires FilledRange(l, f, f', inum, OFF, OFF + MAXCHUNK) && LogsAll(l, f, f', inum, OFF, MAXCHUNK, logged)
    ensures Shape(l, f)
    ensures var d := f.inodes[inum].addrs[11]; d in logged && l.nmeta <= d < l.size && Bit(f.bitmap, d)
  {
    hide Touched, Bit, NoHoles, LogsFills, Shape, Owned, Scattered;
    OwnedBlock(l, f, inum, 11);
    OwnedShape(l, f');
    assert DataSlot(11) == 11 && OFF / BSIZE == 11 && BlocksEnd(OFF, MAXCHUNK) == 15;
    assert Addr(l, f', inum, DataSlot(11)) in logged;
  }

  lemma FreeIsData(l: Layout, f: FS, inum: nat, fr: seq<nat>, i: nat)
    requires Tight(l, f, inum, fr) && i < 4
    ensures l.nmeta <= fr[i]
  {
    hide Bit;
  }

  lemma ChunkLogsFree(l: Layout, f: FS, f': FS, inum: nat, fr: seq<nat>, logged: set<nat>)
    requires Tight(l, f, inum, fr) && Owned(l, f') && inum in f'.inodes
    requires FilledRange(l, f, f', inum, OFF, OFF + MAXCHUNK) && LogsFills(l, f, f', inum, logged)
    ensures forall i | 0 <= i < 4 :: fr[i] in logged && l.BitmapBlock(fr[i]) in logged
  {
    hide Owned, FilledRange, Addr, NoHoles, Bit, LogsFills, Gained;
    OwnedShape(l, f');
    forall k | 0 <= k < 4
      ensures var a := Gained(l, f', inum, k);
              a in fr && a in logged && l.BitmapBlock(a) in logged && a in f'.owner && f'.owner[a] == Slot(inum, 12 + k)
    {
      FilledSlot(l, f, f', inum, fr, logged, k);
    }
    var a := [Gained(l, f', inum, 0), Gained(l, f', inum, 1), Gained(l, f', inum, 2), Gained(l, f', inum, 3)];
    assert forall k | 0 <= k < 4 :: a[k] == Gained(l, f', inum, k);
    TakesAllFour(a, fr);
    forall i | 0 <= i < 4 ensures fr[i] in logged && l.BitmapBlock(fr[i]) in logged {
      assert fr[i] in a;
      var k :| 0 <= k < 4 && a[k] == fr[i];
    }
  }

  /** Four blocks above nmeta, four and one below it, and one more above. */
  lemma TenBlocks(nmeta: nat, fr: seq<nat>, bm: seq<nat>, d: nat, ib: nat, logged: set<nat>)
    requires |fr| == 4 && |bm| == 4 && d >= nmeta && ib < nmeta && d in logged && ib in logged
    requires forall i | 0 <= i < 4 :: fr[i] >= nmeta && bm[i] < nmeta && fr[i] != d && bm[i] != ib
    requires forall i, j | 0 <= i < j < 4 :: fr[i] != fr[j] && bm[i] != bm[j]
    requires forall i | 0 <= i < 4 :: fr[i] in logged && bm[i] in logged
    ensures |logged| >= 10
  {
    var x := fr + bm + [d, ib];
    forall i, j | 0 <= i < j < |x| ensures x[i] != x[j] {
    }
    DistinctSize(x);
    SubsetSize(Elements(x), logged);
  }

  /** Four data blocks, the indirect block, four bitmap blocks and the inode: ten blocks. */
  lemma ChunkLogsTen(l: Layout, f: FS, f': FS, inum: nat, fr: seq<nat>, logged: set<nat>)
    requires Tight(l, f, inum, fr) && Owned(l, f') && inum in f'.inodes
    requires FilledRange(l, f, f', inum, OFF, OFF + MAXCHUNK) && LogsAll(l, f, f', inum, OFF, MAXCHUNK, logged)
    requires l.InodeBlock(inum) in logged
    ensures |logged| >= 10
  {
    hide Owned, FilledRange, Addr, NoHoles, Bit, LogsFills;
    OwnedShape(l, f);
    ChunkLogsFree(l, f, f', inum, fr, logged);
    LastDirect(l, f, f', inum, fr, logged);
    var bm := seq(4, i requires 0 <= i < 4 => l.BitmapBlock(fr[i]));
    forall i | 0 <= i < 4 ensures l.nmeta <= fr[i] {
      FreeIsData(l, f, inum, fr, i);
    }
    forall i, j | 0 <= i < j < 4 ensures fr[i] != fr[j] {
      assert l.BitmapBlock(fr[i]) != l.BitmapBlock(fr[j]);
    }
    TenBlocks(l.nmeta, fr, bm, f.inodes[inum].addrs[11], l.InodeBlock(inum), logged);
  }

  lemma NowOwned(l: Layout, f: FS, f': FS, inum: nat, fr: seq<nat>, i: nat) returns (q: Slot)
    requires Tight(l, f, inum, fr) && Owned(l, f') && f'.inodes.Keys == f.inodes.Keys && Full(l, f'.bitmap) && i < 4
    ensures q.inum in f'.inodes && q.s < NSLOTS && fr[i] != 0
    ensures Addr(l, f', q.inum, q.s) == fr[i] != Addr(l, f, q.inum, q.s)
  {
    FreeIsData(l, f, inum, fr, i);
    hide Addr, NoHoles, Bit;
    var b := fr[i];
    assert Bit(f'.bitmap, b) && !Bit(f.bitmap, b);
    q := f'.owner[b];
    assert b !in f.owner;
  }

  /** If every bit is set, a block that was free belongs to one of the four slots. */
  lemma FreeTaken(l: Layout, f: FS, f': FS, inum: nat, fr: seq<nat>, i: nat) returns (t: nat)
    requires Tight(l, f, inum, fr) && UsedUp(l, f, f', inum, OFF, OFF + MAXCHUNK) && i < 4
    ensures 12 <= t <= 15 && |fr| == 4 && Shape(l, f') && inum in f'.inodes && Addr(l, f', inum, t) == fr[i] != 0
  {
    hide Owned, Addr, Touched, Full, Tight;
    SlotEleven(l, f, inum, fr);
    FreeDiffer(l, f, inum, fr);
    OwnedShape(l, f');
    var q := NowOwned(l, f, f', inum, fr, i);
    t := q.s;
    TouchedHere(t);
  }

  lemma SlotEleven(l: Layout, f: FS, inum: nat, fr: seq<nat>)
    requires Tight(l, f, inum, fr)
    ensures Shape(l, f) && Addr(l, f, inum, 11) != 0
  {
  }

  lemma FreeDiffer(l: Layout, f: FS, inum: nat, fr: seq<nat>)
    requires Tight(l, f, inum, fr)
    ensures |fr| == 4 && fr[0] != fr[1] && fr[0] != fr[2] && fr[0] != fr[3] && fr[1] != fr[2] && fr[1] != fr[3] && fr[2] != fr[3]
  {
    hide Owned, NoHoles, Bit;
    forall i, j | 0 <= i < j < 4 ensures fr[i] != fr[j] {
      assert l.BitmapBlock(fr[i]) != l.BitmapBlock(fr[j]);
    }
  }

  /** By the time the disk is full, the chunk has all the blocks it needs. */
  lemma FourSuffice(l: Layout, f: FS, f': FS, inum: nat, fr: seq<nat>)
    requires Tight(l, f, inum, fr) && UsedUp(l, f, f', inum, OFF, OFF + MAXCHUNK)
    ensures Shape(l, f') && forall t | 0 <= t < NSLOTS && Touched(t, OFF, OFF + MAXCHUNK) :: Addr(l, f', inum, t) != 0
  {
    hide Owned, Addr, Touched, Full, Tight;
    SlotEleven(l, f, inum, fr);
    FreeDiffer(l, f, inum, fr);
    var t0 := FreeTaken(l, f, f', inum, fr, 0);
    var t1 := FreeTaken(l, f, f', inum, fr, 1);
    var t2 := FreeTaken(l, f, f', inum, fr, 2);
    var t3 := FreeTaken(l, f, f', inum, fr, 3);
    forall t | 0 <= t < NSLOTS && Touched(t, OFF, OFF + MAXCHUNK) ensures Addr(l, f', inum, t) != 0 {
      TouchedHere(t);
    }
  }

  /** So the chunk never runs out of blocks. */
  lemma NeverStuck(l: Layout, f: FS, f': FS, inum: nat, fr: seq<nat>)
    requires Tight(l, f, inum, fr)
    ensures !OutOfBlocks(l, f, f', inum, OFF, OFF + MAXCHUNK)
  {
    hide UsedUp, Touched, Tight, Addr;
    if UsedUp(l, f, f', inum, OFF, OFF + MAXCHUNK) {
      FourSuffice(l, f, f', inum, fr);
    }
  }

  /** On such a disk the chunk is written whole, and its transaction is exactly as large as its budget. */
  method ReachBudget(fs: FileSystem, inum: nat, src: seq<Byte>, ghost fr: seq<nat>) returns (r: Outcome<int>)
    requires fs.Valid() && Tight(fs.l, fs.State(), inum, fr) && fs.inodes[inum].kind != T_DEV
    requires |src| == MAXCHUNK && fs.logged == {}
    modifies fs
    ensures r == Ok(MAXCHUNK) && |fs.logged| == 10
  {
    hide Owned, Addr, Content, OthersSame, FilledRange, LogsAll, OutOfBlocks, InodeHole, Splice, NoHoles, Scattered;
    ghost var f := fs.State();
    OwnedShape(fs.l, f);
    r := fs.WriteI(inum, src, OFF);
    if r.Panic? {
      NeverStuck(fs.l, f, fs.State(), inum, fr);
    } else {
      ChunkLogsTen(fs.l, f, fs.State(), inum, fr, fs.logged);
      assert fs.logged - {} == fs.logged;
    }
  }

  // ---- such a disk ----

  const DISK: Layout := Layout(12301, 4095, 100, 10)

  const FREE: seq<nat> := [4095, 4096, 8192, 12288]

  /** Inode 0 has the last twelve blocks; the other inodes share out all the rest but the free ones. */
  function BlockOf(i: nat, s: nat): nat {
    if i == 0 then 12289 + s
    else var x := (i - 1) * 12 + s; if x < 4095 then 4097 + x else if x < 8190 then 4098 + x else 0
  }

  function SlotOf(b: nat): Slot
    requires b >= 4097 && b != 8192
  {
    if b >= 12289 then Slot(0, b - 12289)
    else var x := if b < 8192 then b - 4097 else b - 4098; Slot(1 + x / 12, x % 12)
  }

  lemma BlockSlots(i: nat, s: nat)
    requires i < 684 && s < 12
    ensures var b := BlockOf(i, s);
            b != 0 ==> 4097 <= b < 12301 && b != 8192 && b != 12288 && SlotOf(b) == Slot(i, s)
  {
    if i > 0 {
      var x := (i - 1) * 12 + s;
      assert x / 12 == i - 1 && x % 12 == s;
    }
  }

  lemma SlotBlocks(b: nat)
    requires 4097 <= b < 12301 && b != 8192 && b != 12288
    ensures var q := SlotOf(b); q.inum < 684 && q.s < 12 && BlockOf(q.inum, q.s) == b
  {
    if b < 12289 {
      var x := if b < 8192 then b - 4097 else b - 4098;
      assert (x / 12) * 12 + x % 12 == x;
    }
  }

  /** A bitmap byte with every bit set but those of the free blocks. */
  function MapByte(j: nat): bv8 {
    if j == 511 then 0x7F else if j == 512 || j == 1024 || j == 1536 then 0xFE else 0xFF
  }

  lemma MapByteBits(j: nat, k: nat)
    requires k < 8
    ensures TestBit(MapByte(j), k) <==> !((j == 511 && k == 7) || ((j == 512 || j == 1024 || j == 1536) && k == 0))
  {
  }

  function InodeAt(i: nat): Inode {
    Inode(2, 0, 0, 1, if i == 0 then OFF else 0, seq(13, s requires 0 <= s < 13 => if s < 12 then BlockOf(i, s) else 0))
  }

  ghost function State(): FS {
    FS(seq(1538, j requires 0 <= j < 1538 => MapByte(j)),
       seq(12301, _ => Zeros()),
       map i: nat | i < 684 :: InodeAt(i),
       map b: nat | 4097 <= b < 12301 && b != 8192 && b != 12288 :: SlotOf(b))
  }

  lemma StateBits(b: nat)
    requires b < 12301
    ensures Bit(State().bitmap, b) <==> b !in FREE
  {
    MapByteBits(b / 8, b % 8);
  }

  lemma StateShape()
    ensures Shape(DISK, State())
  {
    forall i, s | i in State().inodes && 0 <= s <= NDIRECT ensures State().inodes[i].addrs[s] < DISK.size {
      if s < 12 {
        BlockSlots(i, s);
      }
    }
  }

  lemma StateAddr(i: nat, s: nat)
    requires i in State().inodes && s < NSLOTS
    ensures i < 684 && Shape(DISK, State()) && Addr(DISK, State(), i, s) == (if s < 12 then BlockOf(i, s) else 0)
  {
    StateShape();
    hide Shape;
    assert State().inodes[i] == InodeAt(i);
  }

  lemma StateOwner(a: nat)
    ensures a in State().owner <==> 4097 <= a < 12301 && a != 8192 && a != 12288
    ensures a in State().owner ==> State().owner[a] == SlotOf(a)
    ensures forall i: nat | i < 684 :: i in State().inodes
  {
  }

  lemma StateOwned()
    ensures Owned(DISK, State())
  {
    hide State, Shape, Addr, Bit, BlockOf, SlotOf;
    StateShape();
    var f := State();
    forall i, s | i in f.inodes && 0 <= s < NSLOTS && Addr(DISK, f, i, s) != 0
      ensures Addr(DISK, f, i, s) in f.owner && f.owner[Addr(DISK, f, i, s)] == Slot(i, s)
    {
      StateAddr(i, s);
      BlockSlots(i, s);
      StateOwner(BlockOf(i, s));
    }
    forall a | a in f.owner
      ensures DISK.nmeta <= a < DISK.size
      ensures f.owner[a].inum in f.inodes && f.owner[a].s < NSLOTS && Addr(DISK, f, f.owner[a].inum, f.owner[a].s) == a
    {
      StateOwner(a);
      SlotBlocks(a);
      StateAddr(f.owner[a].inum, f.owner[a].s);
    }
    forall b | 0 <= b < DISK.size ensures Bit(f.bitmap, b) <==> b < DISK.nmeta || b in f.owner {
      StateBits(b);
      StateOwner(b);
    }
  }

  lemma StateNoHoles()
    ensures Owned(DISK, State()) && 0 in State().inodes && NoHoles(DISK, State(), 0)
  {
    StateOwned();
    hide Owned;
    StateShape();
  }

  lemma StateScattered()
    ensures Shape(DISK, State()) && Scattered(DISK, State(), FREE)
  {
    StateShape();
    hide Shape, Bit, MapByte;
    forall b | 0 <= b < DISK.size ensures Bit(State().bitmap, b) <==> b !in FREE {
      StateBits(b);
    }
  }

  /** The budget is reached: there is a disk as ReachBudget asks for. */
  lemma BudgetIsTight()
    ensures Tight(DISK, State(), 0, FREE)
  {
    hide Owned, Shape, NoHoles, Scattered;
    StateNoHoles();
    StateScattered();
  }
}
