/**
 What an fs.c disk means: each inode's thirteen addresses and its indirect block name the blocks
 it owns, the bitmap marks the blocks in use, and the owned data blocks spell out one flat
 sequence of bytes. The disk is split by region (bitmap, inodes, data blocks), which mkfs lays
 out disjointly.
 */
module Inodes {
  import opened Bytes

  const BSIZE: nat := 512
  const NDIRECT: nat := 12
  const NINDIRECT: nat := 128
  const MAXFILE: nat := NDIRECT + NINDIRECT
  /** twelve direct slots, the indirect pointer, and the indirect block's entries */
  const NSLOTS: nat := NDIRECT + 1 + NINDIRECT
  const BPB: nat := BSIZE * 8
  const IPB: nat := 8

  datatype Inode = Inode(kind: int, major: int, minor: int, nlink: int, size: nat, addrs: seq<nat>)

  datatype Layout = Layout(size: nat, nmeta: nat, bmapstart: nat, inodestart: nat) {
    ghost predicate Valid() {
      1 <= nmeta <= size < WORD
    }

    /** BBLOCK */
    function BitmapBlock(b: nat): nat { b / BPB + bmapstart }

    /** IBLOCK */
    function InodeBlock(inum: nat): nat { inum / IPB + inodestart }
  }

  /** The slot of an inode, 0..NSLOTS-1, that can hold a block address. */
  datatype Slot = Slot(inum: nat, s: nat)

  datatype FS = FS(bitmap: seq<bv8>, blocks: seq<seq<Byte>>, inodes: map<nat, Inode>, owner: map<nat, Slot>)

  /** A freshly zeroed block. */
  function Zeros(): (r: seq<Byte>)
    ensures |r| == BSIZE && forall k | 0 <= k < BSIZE :: r[k] == 0
  {
    seq(BSIZE, _ => 0)
  }

  /** Sizes and index ranges. */
  ghost predicate Shape(l: Layout, f: FS) {
    && l.Valid()
    && l.size <= 8 * |f.bitmap|
    && |f.blocks| == l.size
    && (forall b | 0 <= b < l.size :: |f.blocks[b]| == BSIZE)
    && (forall i | i in f.inodes :: |f.inodes[i].addrs| == NDIRECT + 1 && f.inodes[i].size <= MAXFILE * BSIZE)
    && (forall i, s | i in f.inodes && 0 <= s <= NDIRECT :: f.inodes[i].addrs[s] < l.size)
  }

  /** The address in a slot; the entries of an absent indirect block read as 0. */
  ghost function Addr(l: Layout, f: FS, i: nat, s: nat): nat
    requires Shape(l, f) && i in f.inodes && s < NSLOTS
  {
    var ip := f.inodes[i];
    if s <= NDIRECT then ip.addrs[s]
    else if ip.addrs[NDIRECT] == 0 then 0
    else Word(f.blocks[ip.addrs[NDIRECT]], s - NDIRECT - 1)
  }

  /** The slot for the bn-th block of a file. */
  function DataSlot(bn: nat): nat {
    if bn < NDIRECT then bn else bn + 1
  }

  /**
   Ownership: a nonzero slot holds a data block that no other slot holds, and a bitmap bit is set
   exactly for the metadata blocks and the owned blocks.
   */
  ghost predicate Owned(l: Layout, f: FS) {
    && Shape(l, f)
    && (forall i, s | i in f.inodes && 0 <= s < NSLOTS ::
          Addr(l, f, i, s) != 0 ==> Addr(l, f, i, s) in f.owner && f.owner[Addr(l, f, i, s)] == Slot(i, s))
    && (forall a | a in f.owner ::
          && l.nmeta <= a < l.size
          && f.owner[a].inum in f.inodes && f.owner[a].s < NSLOTS
          && Addr(l, f, f.owner[a].inum, f.owner[a].s) == a)
    && (forall b | 0 <= b < l.size :: Bit(f.bitmap, b) <==> b < l.nmeta || b in f.owner)
  }

  /** The k-th byte of file i; a block that was never allocated reads as zeros. */
  ghost function ByteAt(l: Layout, f: FS, i: nat, k: nat): Byte
    requires Owned(l, f) && i in f.inodes && k < MAXFILE * BSIZE
  {
    var a := Addr(l, f, i, DataSlot(k / BSIZE));
    if a == 0 then 0 else f.blocks[a][k % BSIZE]
  }

  /** The file as a flat byte sequence. */
  ghost function Content(l: Layout, f: FS, i: nat): (c: seq<Byte>)
    requires Owned(l, f) && i in f.inodes
    ensures |c| == f.inodes[i].size
  {
    seq(f.inodes[i].size, k requires 0 <= k < f.inodes[i].size => ByteAt(l, f, i, k))
  }

  /** Every block below the file's size has been allocated. */
  ghost predicate NoHoles(l: Layout, f: FS, i: nat)
    requires Owned(l, f) && i in f.inodes
  {
    forall bn | 0 <= bn < MAXFILE && bn * BSIZE < f.inodes[i].size :: Addr(l, f, i, DataSlot(bn)) != 0
  }

  /** The same files in the same blocks: every slot and every byte of every file agrees. */
  ghost predicate SameFiles(l: Layout, f: FS, f': FS)
    requires Owned(l, f) && Owned(l, f')
  {
    && f'.inodes.Keys == f.inodes.Keys
    && forall i, k | i in f.inodes && 0 <= k < MAXFILE * BSIZE :: ByteAt(l, f', i, k) == ByteAt(l, f, i, k)
  }

  // ---- allocating a block for a slot ----

  /** Block b, zeroed and marked in use, becomes the target of slot (i, s). */
  ghost function WithSlot(l: Layout, f: FS, i: nat, s: nat, b: nat): FS
    requires Shape(l, f) && i in f.inodes && s < NSLOTS && b < l.size
    requires s > NDIRECT ==> f.inodes[i].addrs[NDIRECT] != 0 && f.inodes[i].addrs[NDIRECT] != b
  {
    var ip := f.inodes[i];
    var blocks := f.blocks[b := Zeros()];
    FS(WithBit(f.bitmap, b),
       if s <= NDIRECT then blocks
       else blocks[ip.addrs[NDIRECT] := SetWord(f.blocks[ip.addrs[NDIRECT]], s - NDIRECT - 1, b)],
       if s <= NDIRECT then f.inodes[i := ip.(addrs := ip.addrs[s := b])] else f.inodes,
       f.owner[b := Slot(i, s)])
  }

  /** b is a free data block and slot (i, s) is empty and can be filled. */
  ghost predicate CanFill(l: Layout, f: FS, i: nat, s: nat, b: nat) {
    && Owned(l, f) && i in f.inodes && s < NSLOTS && b < l.size
    && !Bit(f.bitmap, b)
    && Addr(l, f, i, s) == 0
    && (s > NDIRECT ==> f.inodes[i].addrs[NDIRECT] != 0)
  }

  lemma ZeroWords(j: nat)
    requires j < NINDIRECT
    ensures Word(Zeros(), j) == 0
  {
  }

  /** Distinct slots never share an address. */
  lemma OwnersDiffer(l: Layout, f: FS, i: nat, s: nat, j: nat, t: nat)
    requires Owned(l, f) && i in f.inodes && j in f.inodes && s < NSLOTS && t < NSLOTS
    requires Slot(i, s) != Slot(j, t) && Addr(l, f, i, s) != 0
    ensures Addr(l, f, i, s) != Addr(l, f, j, t)
  {
  }

  lemma FreeBlockUnowned(l: Layout, f: FS, b: nat, i: nat, s: nat)
    requires Owned(l, f) && b < l.size && !Bit(f.bitmap, b) && i in f.inodes && s < NSLOTS
    ensures b >= l.nmeta && b != 0 && b !in f.owner && Addr(l, f, i, s) != b
  {
  }

  lemma SlotKeepsShape(l: Layout, f: FS, i: nat, s: nat, b: nat)
    requires Shape(l, f) && i in f.inodes && s < NSLOTS && b < l.size
    requires s > NDIRECT ==> f.inodes[i].addrs[NDIRECT] != 0 && f.inodes[i].addrs[NDIRECT] != b
    ensures Shape(l, WithSlot(l, f, i, s, b))
  {
  }

  lemma FillShape(l: Layout, f: FS, i: nat, s: nat, b: nat)
    requires CanFill(l, f, i, s, b)
    ensures s > NDIRECT ==> f.inodes[i].addrs[NDIRECT] != b
    ensures Shape(l, WithSlot(l, f, i, s, b))
  {
    FreeBlockUnowned(l, f, b, i, NDIRECT);
    SlotKeepsShape(l, f, i, s, b);
    hide Shape, WithSlot, Bit, Word;
  }

  lemma FillAddr(l: Layout, f: FS, i: nat, s: nat, b: nat, j: nat, t: nat)
    requires CanFill(l, f, i, s, b) && j in f.inodes && t < NSLOTS
    requires s > NDIRECT ==> f.inodes[i].addrs[NDIRECT] != b
    requires Shape(l, WithSlot(l, f, i, s, b))
    ensures Addr(l, WithSlot(l, f, i, s, b), j, t) == if Slot(j, t) == Slot(i, s) then b else Addr(l, f, j, t)
  {
    hide Word, SetWord, Bit, WithBit;
    var f' := WithSlot(l, f, i, s, b);
    FreeBlockUnowned(l, f, b, j, NDIRECT);
    FreeBlockUnowned(l, f, b, j, t);
    if t > NDIRECT {
      var ind := f.inodes[j].addrs[NDIRECT];
      if j == i && s == NDIRECT {
        ZeroWords(t - NDIRECT - 1);
      } else if ind != 0 {
        if s > NDIRECT {
          var ind' := f.inodes[i].addrs[NDIRECT];
          if j == i {
            WordAfterSet(f.blocks[ind], s - NDIRECT - 1, b, t - NDIRECT - 1);
          } else {
            OwnersDiffer(l, f, i, NDIRECT, j, NDIRECT);
          }
        }
      }
    }
  }

  lemma FillBits(l: Layout, f: FS, b: nat)
    requires Owned(l, f) && b < l.size
    ensures forall c | 0 <= c < l.size :: Bit(WithBit(f.bitmap, b), c) <==> c == b || Bit(f.bitmap, c)
  {
    forall c | 0 <= c < l.size ensures Bit(WithBit(f.bitmap, b), c) <==> c == b || Bit(f.bitmap, c) {
      WithBitTests(f.bitmap, b, c);
    }
  }

  /** Filling an empty slot with a free, zeroed block keeps ownership and changes no file. */
  lemma FillKeeps(l: Layout, f: FS, i: nat, s: nat, b: nat)
    requires CanFill(l, f, i, s, b)
    ensures s > NDIRECT ==> f.inodes[i].addrs[NDIRECT] != b
    ensures Owned(l, WithSlot(l, f, i, s, b))
  {
    FillShape(l, f, i, s, b);
    var f' := WithSlot(l, f, i, s, b);
    FreeBlockUnowned(l, f, b, i, s);
    forall j, t | j in f'.inodes && 0 <= t < NSLOTS
      ensures Addr(l, f', j, t) != 0 ==> Addr(l, f', j, t) in f'.owner && f'.owner[Addr(l, f', j, t)] == Slot(j, t)
    {
      FillAddr(l, f, i, s, b, j, t);
      FreeBlockUnowned(l, f, b, j, t);
    }
    forall a | a in f'.owner
      ensures l.nmeta <= a < l.size && f'.owner[a].inum in f'.inodes && f'.owner[a].s < NSLOTS
      ensures Addr(l, f', f'.owner[a].inum, f'.owner[a].s) == a
    {
      if a != b {
        FillAddr(l, f, i, s, b, f.owner[a].inum, f.owner[a].s);
      } else {
        FillAddr(l, f, i, s, b, i, s);
      }
    }
    FillBits(l, f, b);
  }

  lemma FillKeepsByte(l: Layout, f: FS, i: nat, s: nat, b: nat, j: nat, k: nat)
    requires CanFill(l, f, i, s, b) && j in f.inodes && k < MAXFILE * BSIZE
    requires s > NDIRECT ==> f.inodes[i].addrs[NDIRECT] != b
    requires Owned(l, WithSlot(l, f, i, s, b))
    ensures ByteAt(l, WithSlot(l, f, i, s, b), j, k) == ByteAt(l, f, j, k)
  {
    var t := DataSlot(k / BSIZE);
    var f' := WithSlot(l, f, i, s, b);
    FillAddr(l, f, i, s, b, j, t);
    var a := Addr(l, f, j, t);
    if a != 0 {
      FreeBlockUnowned(l, f, b, j, t);
      if s > NDIRECT {
        OwnersDiffer(l, f, j, t, i, NDIRECT);
      }
      assert f'.blocks[a] == f.blocks[a];
    }
  }

  lemma FillKeepsFiles(l: Layout, f: FS, i: nat, s: nat, b: nat)
    requires CanFill(l, f, i, s, b)
    ensures s > NDIRECT ==> f.inodes[i].addrs[NDIRECT] != b
    ensures Owned(l, WithSlot(l, f, i, s, b)) && SameFiles(l, f, WithSlot(l, f, i, s, b))
  {
    FillKeeps(l, f, i, s, b);
    var f' := WithSlot(l, f, i, s, b);
    forall j, k | j in f.inodes && 0 <= k < MAXFILE * BSIZE ensures ByteAt(l, f', j, k) == ByteAt(l, f, j, k) {
      FillKeepsByte(l, f, i, s, b, j, k);
    }
  }

  // ---- storing into a data block ----

  /** New contents for block a. */
  function WithBlock(f: FS, a: nat, data: seq<Byte>): FS
    requires a < |f.blocks|
  {
    f.(blocks := f.blocks[a := data])
  }

  lemma StoreAddr(l: Layout, f: FS, i: nat, s: nat, data: seq<Byte>, j: nat, t: nat)
    requires Owned(l, f) && i in f.inodes && s < NSLOTS && s != NDIRECT && |data| == BSIZE
    requires Addr(l, f, i, s) != 0 && j in f.inodes && t < NSLOTS
    ensures Shape(l, WithBlock(f, Addr(l, f, i, s), data))
    ensures Addr(l, WithBlock(f, Addr(l, f, i, s), data), j, t) == Addr(l, f, j, t)
  {
    OwnersDiffer(l, f, i, s, j, NDIRECT);
  }

  lemma StoreKeeps(l: Layout, f: FS, i: nat, s: nat, data: seq<Byte>)
    requires Owned(l, f) && i in f.inodes && s < NSLOTS && s != NDIRECT && |data| == BSIZE
    requires Addr(l, f, i, s) != 0
    ensures Owned(l, WithBlock(f, Addr(l, f, i, s), data))
  {
    var f' := WithBlock(f, Addr(l, f, i, s), data);
    StoreAddr(l, f, i, s, data, i, s);
    forall j, t | j in f.inodes && 0 <= t < NSLOTS ensures Addr(l, f', j, t) == Addr(l, f, j, t) {
      StoreAddr(l, f, i, s, data, j, t);
    }
  }

  /** Storing into the bn-th block of file i changes the bytes of that block of that file only. */
  lemma StoreByte(l: Layout, f: FS, i: nat, bn: nat, data: seq<Byte>, j: nat, k: nat)
    requires Owned(l, f) && i in f.inodes && bn < MAXFILE && |data| == BSIZE
    requires Addr(l, f, i, DataSlot(bn)) != 0 && j in f.inodes && k < MAXFILE * BSIZE
    requires Owned(l, WithBlock(f, Addr(l, f, i, DataSlot(bn)), data))
    ensures ByteAt(l, WithBlock(f, Addr(l, f, i, DataSlot(bn)), data), j, k)
            == if j == i && k / BSIZE == bn then data[k % BSIZE] else ByteAt(l, f, j, k)
  {
    StoreAddr(l, f, i, DataSlot(bn), data, j, DataSlot(k / BSIZE));
    if j != i || k / BSIZE != bn {
      OwnersDiffer(l, f, i, DataSlot(bn), j, DataSlot(k / BSIZE));
    }
  }

  // ---- truncation ----

  const NOADDRS: seq<nat> := [0, 0, 0, 0, 0, 0, 0, 0, 0, 0, 0, 0, 0]

  /** How far itrunc has come: the first direct slots, then the first entries, then the indirect block. */
  datatype Progress = Progress(direct: nat, entries: nat, indirect: bool) {
    predicate Freed(s: nat) {
      if s < NDIRECT then s < direct else if s == NDIRECT then indirect else s - NDIRECT - 1 < entries
    }
  }

  /** The bitmap once the slots of inode i that have been freed no longer count. */
  ghost predicate KeepsBits(l: Layout, f: FS, i: nat, bitmap: seq<bv8>, done: Progress)
    requires Owned(l, f) && |bitmap| == |f.bitmap|
  {
    forall b | 0 <= b < l.size ::
      Bit(bitmap, b) <==> b < l.nmeta || (b in f.owner && !(f.owner[b].inum == i && done.Freed(f.owner[b].s)))
  }

  ghost function OthersOwn(f: FS, i: nat): map<nat, Slot> {
    map a | a in f.owner && f.owner[a].inum != i :: f.owner[a]
  }

  /** Inode i with no blocks and size 0; all its blocks are free and nothing else changes. */
  ghost function Truncated(f: FS, i: nat, bitmap: seq<bv8>): FS
    requires i in f.inodes
  {
    FS(bitmap, f.blocks, f.inodes[i := f.inodes[i].(addrs := NOADDRS, size := 0)], OthersOwn(f, i))
  }

  lemma TruncatedAddr(l: Layout, f: FS, i: nat, bitmap: seq<bv8>, j: nat, t: nat)
    requires Owned(l, f) && i in f.inodes && |bitmap| == |f.bitmap| && j in f.inodes && t < NSLOTS
    ensures Shape(l, Truncated(f, i, bitmap))
    ensures Addr(l, Truncated(f, i, bitmap), j, t) == if j == i then 0 else Addr(l, f, j, t)
  {
  }

  /** itrunc frees exactly the inode's blocks, and no other file changes. */
  lemma TruncateKeeps(l: Layout, f: FS, i: nat, bitmap: seq<bv8>)
    requires Owned(l, f) && i in f.inodes && |bitmap| == |f.bitmap|
    requires KeepsBits(l, f, i, bitmap, Progress(NDIRECT, NINDIRECT, true))
    ensures Owned(l, Truncated(f, i, bitmap))
    ensures Content(l, Truncated(f, i, bitmap), i) == []
    ensures forall j, k | j in f.inodes && j != i && 0 <= k < MAXFILE * BSIZE ::
              ByteAt(l, Truncated(f, i, bitmap), j, k) == ByteAt(l, f, j, k)
  {
    var f' := Truncated(f, i, bitmap);
    TruncatedAddr(l, f, i, bitmap, i, 0);
    forall j, t | j in f.inodes && 0 <= t < NSLOTS
      ensures Addr(l, f', j, t) == if j == i then 0 else Addr(l, f, j, t)
    {
      TruncatedAddr(l, f, i, bitmap, j, t);
    }
  }

  // ---- a new file system ----

  /** Empty inodes, and no block in use beyond the metadata. */
  lemma NewFiles(l: Layout, f: FS)
    requires l.Valid() && l.size <= 8 * |f.bitmap| && |f.blocks| == l.size && f.owner == map[]
    requires forall b | 0 <= b < l.size :: |f.blocks[b]| == BSIZE
    requires forall b | 0 <= b < l.size :: Bit(f.bitmap, b) <==> b < l.nmeta
    requires forall i | i in f.inodes :: f.inodes[i].addrs == NOADDRS && f.inodes[i].size == 0
    ensures Owned(l, f) && forall i | i in f.inodes :: Content(l, f, i) == [] && NoHoles(l, f, i)
  {
    hide Bit;
    assert forall s | 0 <= s <= NDIRECT :: NOADDRS[s] == 0;
    assert Shape(l, f);
    forall i, s | i in f.inodes && 0 <= s < NSLOTS ensures Addr(l, f, i, s) == 0 {
    }
    assert Owned(l, f);
  }
}
