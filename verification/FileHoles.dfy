/**
 A write that leaves the inode on disk behind. writei updates it only when the file grows, but a
 write into a hole gives the inode an address that the copy on disk does not have. mkfs makes such
 a hole when it rounds the size of the root directory up.
 */
module FileHoles {
  import opened Bytes
  import opened Common
  import opened FileCode
  import opened FileSpec
  import opened Inodes

  const DISK: Layout := Layout(10, 5, 2, 3)

  /** One file of one block that was never allocated; blocks 5 to 9 are free. */
  function Holey(): FS {
    FS([0x1F, 0], seq(10, _ => Zeros()), map[0 := Inode(2, 0, 0, 1, BSIZE, NOADDRS)], map[])
  }

  lemma HoleyBits(b: nat)
    requires b < 16
    ensures Bit(Holey().bitmap, b) <==> b < 5
  {
    assert Bit(Holey().bitmap, b) <==> TestBit(if b < 8 then 0x1F else 0, b % 8);
  }

  lemma HoleyOwned()
    ensures Owned(DISK, Holey()) && !NoHoles(DISK, Holey(), 0)
    ensures InodeHole(Holey().inodes[0], 0, 1)
  {
    var f := Holey();
    forall b | 0 <= b < DISK.size ensures Bit(f.bitmap, b) <==> b < DISK.nmeta {
      HoleyBits(b);
    }
    assert Owned(DISK, f);
    assert Addr(DISK, f, 0, DataSlot(0)) == 0;
    assert Touched(0, 0, 1) && f.inodes[0].addrs[0] == 0;
  }

  /** A block that was free and is in use now belongs to the one slot in the way of the write. */
  lemma TakenBySlotZero(f': FS, b: nat)
    requires UsedUp(DISK, Holey(), f', 0, 0, 1) && 5 <= b < 10
    ensures Addr(DISK, f', 0, 0) == b
  {
    hide Bit;
    var f := Holey();
    assert Bit(f'.bitmap, b) && b in f'.owner;
    var q := f'.owner[b];
    assert Addr(DISK, f', q.inum, q.s) == b && Addr(DISK, f, q.inum, q.s) == 0;
  }

  lemma RoomForOne(f': FS)
    ensures !OutOfBlocks(DISK, Holey(), f', 0, 0, 1)
  {
    if UsedUp(DISK, Holey(), f', 0, 0, 1) {
      TakenBySlotZero(f', 5);
      TakenBySlotZero(f', 6);
    }
  }

  /** One byte at offset 0: the file has it, the inode in memory has its block, and the inode on disk does not. */
  method StaleInode(fs: FileSystem, x: Byte) returns (r: Outcome<int>)
    requires fs.l == DISK && fs.State() == Holey() && fs.dinodes == fs.inodes
    modifies fs
    ensures r == Ok(1) && 0 in fs.inodes && 0 in fs.dinodes && fs.dinodes[0] != fs.inodes[0]
  {
    HoleyOwned();
    hide Owned, Addr, Content, OthersSame, FilledRange, LogsAll, OutOfBlocks, InodeHole, Splice, NoHoles;
    r := fs.WriteI(0, [x], 0);
    if r.Panic? {
      RoomForOne(fs.State());
    }
  }
}
