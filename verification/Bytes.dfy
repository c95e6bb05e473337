/** Bits of bitmap bytes and little-endian words of data blocks. */
module Bytes {

  type Byte = x: int | 0 <= x < 256

  /** 1 << (k % 8) */
  function Mask(k: nat): bv8
    requires k < 8
  {
    if k == 0 then 1 else if k == 1 then 2 else if k == 2 then 4 else if k == 3 then 8
    else if k == 4 then 16 else if k == 5 then 32 else if k == 6 then 64 else 128
  }

  predicate TestBit(x: bv8, k: nat)
    requires k < 8
  {
    x & Mask(k) != 0
  }

  function SetBit(x: bv8, k: nat): bv8
    requires k < 8
  {
    x | Mask(k)
  }

  function ClearBit(x: bv8, k: nat): bv8
    requires k < 8
  {
    x & !Mask(k)
  }

  lemma SetBitTests(x: bv8, k: nat, j: nat)
    requires k < 8 && j < 8
    ensures TestBit(SetBit(x, k), j) <==> j == k || TestBit(x, j)
  {
  }

  lemma ClearBitTests(x: bv8, k: nat, j: nat)
    requires k < 8 && j < 8
    ensures TestBit(ClearBit(x, k), j) <==> j != k && TestBit(x, j)
  {
  }

  /** Bit b of a bitmap held as bytes. */
  predicate Bit(bitmap: seq<bv8>, b: nat)
    requires b < 8 * |bitmap|
  {
    TestBit(bitmap[b / 8], b % 8)
  }

  function WithBit(bitmap: seq<bv8>, b: nat): (r: seq<bv8>)
    requires b < 8 * |bitmap|
    ensures |r| == |bitmap|
  {
    bitmap[b / 8 := SetBit(bitmap[b / 8], b % 8)]
  }

  function WithoutBit(bitmap: seq<bv8>, b: nat): (r: seq<bv8>)
    requires b < 8 * |bitmap|
    ensures |r| == |bitmap|
  {
    bitmap[b / 8 := ClearBit(bitmap[b / 8], b % 8)]
  }

  lemma ZeroBits(bitmap: seq<bv8>, b: nat)
    requires b < 8 * |bitmap| && forall i | 0 <= i < |bitmap| :: bitmap[i] == 0
    ensures !Bit(bitmap, b)
  {
  }

  lemma WithBitTests(bitmap: seq<bv8>, b: nat, c: nat)
    requires b < 8 * |bitmap| && c < 8 * |bitmap|
    ensures Bit(WithBit(bitmap, b), c) <==> c == b || Bit(bitmap, c)
  {
    SetBitTests(bitmap[b / 8], b % 8, c % 8);
  }

  lemma WithoutBitTests(bitmap: seq<bv8>, b: nat, c: nat)
    requires b < 8 * |bitmap| && c < 8 * |bitmap|
    ensures Bit(WithoutBit(bitmap, b), c) <==> c != b && Bit(bitmap, c)
  {
    ClearBitTests(bitmap[b / 8], b % 8, c % 8);
  }

  const WORD: nat := 0x1_0000_0000

  /** The j-th uint of a block. */
  function Word(blk: seq<Byte>, j: nat): (w: nat)
    requires 4 * j + 4 <= |blk|
    ensures w < WORD
  {
    var b0: int, b1: int, b2: int, b3: int := blk[4 * j], blk[4 * j + 1], blk[4 * j + 2], blk[4 * j + 3];
    b0 + 256 * b1 + 65536 * b2 + 16777216 * b3
  }

  function SetWord(blk: seq<Byte>, j: nat, w: nat): (r: seq<Byte>)
    requires 4 * j + 4 <= |blk| && w < WORD
    ensures |r| == |blk|
  {
    blk[4 * j := w % 256][4 * j + 1 := (w / 256) % 256][4 * j + 2 := (w / 65536) % 256][4 * j + 3 := w / 16777216]
  }

  /** The four bytes of a word add up to it. */
  lemma LittleEndian(w: nat)
    requires w < WORD
    ensures w % 256 + 256 * ((w / 256) % 256) + 65536 * ((w / 65536) % 256) + 16777216 * (w / 16777216) == w
    ensures w / 16777216 < 256
  {
    var q := w / 256;
    var p := q / 256;
    assert w / 65536 == p;
    assert w / 16777216 == p / 256;
    assert w == 256 * q + w % 256;
    assert q == 256 * p + q % 256;
    assert p == 256 * (p / 256) + p % 256;
  }

  lemma WordAfterSet(blk: seq<Byte>, j: nat, w: nat, k: nat)
    requires 4 * j + 4 <= |blk| && 4 * k + 4 <= |blk| && w < WORD
    ensures Word(SetWord(blk, j, w), k) == if k == j then w else Word(blk, k)
  {
    var r := SetWord(blk, j, w);
    if k == j {
      LittleEndian(w);
      assert r[4 * k] == w % 256 && r[4 * k + 1] == (w / 256) % 256;
      assert r[4 * k + 2] == (w / 65536) % 256 && r[4 * k + 3] == w / 16777216;
    } else {
      assert 4 * k + 3 < 4 * j || 4 * j + 3 < 4 * k;
      assert r[4 * k] == blk[4 * k] && r[4 * k + 1] == blk[4 * k + 1];
      assert r[4 * k + 2] == blk[4 * k + 2] && r[4 * k + 3] == blk[4 * k + 3];
    }
  }
}
