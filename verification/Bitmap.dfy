/** The free-block bitmap of fs.c: bits packed in bytes, bytes in as many bitmap blocks as the disk needs. */
module Bitmap {
  import opened Basics
  import opened Blocks

  const BPB: nat := 4096 // BSIZE * 8

  /** Bit k of x. */
  predicate BitOf(x: nat, k: nat) {
    if k == 0 then x % 2 == 1 else BitOf(x / 2, k - 1)
  }

  /** x with bit k set or cleared. */
  function PutBit(x: nat, k: nat, on: bool): nat {
    if k == 0 then x / 2 * 2 + (if on then 1 else 0) else PutBit(x / 2, k - 1, on) * 2 + x % 2
  }

  lemma {:induction false} BitPut(x: nat, k: nat, on: bool, j: nat)
    ensures BitOf(PutBit(x, k, on), j) == if j == k then on else BitOf(x, j)
  {
    if k > 0 && j > 0 {
      BitPut(x / 2, k - 1, on, j - 1);
    }
  }

  function Power2(n: nat): nat {
    if n == 0 then 1 else 2 * Power2(n - 1)
  }

  lemma {:induction false} PutBitBound(x: nat, k: nat, on: bool, n: nat)
    requires x < Power2(n) && k < n
    ensures PutBit(x, k, on) < Power2(n)
  {
    if k > 0 {
      assert x / 2 < Power2(n - 1);
      PutBitBound(x / 2, k - 1, on, n - 1);
      assert PutBit(x, k, on) <= 2 * PutBit(x / 2, k - 1, on) + 1;
    }
  }

  function PutByteBit(x: byte, k: nat, on: bool): byte
    requires k < 8
  {
    assert Power2(8) == 256 by {
      assert Power2(4) == 16;
    }
    PutBitBound(x, k, on, 8);
    PutBit(x, k, on)
  }

  /** The bit of block b. */
  predicate Bit(bmap: seq<Block>, b: nat)
    requires b / BPB < |bmap|
  {
    BitOf(bmap[b / BPB][b % BPB / 8], b % 8)
  }

  /** The bitmap with the bit of block b changed. */
  function WithBit(bmap: seq<Block>, b: nat, on: bool): (r: seq<Block>)
    requires b / BPB < |bmap|
    ensures |r| == |bmap|
  {
    var blk := bmap[b / BPB];
    bmap[b / BPB := blk[b % BPB / 8 := PutByteBit(blk[b % BPB / 8], b % 8, on)]]
  }

  lemma BitWeight(x: nat, k: nat)
    requires k < 8
    ensures BitOf(x, k) <==> x / [1, 2, 4, 8, 16, 32, 64, 128][k] % 2 == 1
  {
    hide BitOf;
    if k >= 4 {
      BitDown(x, k);
      LowBits(x / 16, k - 4);
      Sixteenths(x);
    } else {
      LowBits(x, k);
    }
  }

  lemma Sixteenths(x: nat)
    ensures x / 16 / 2 == x / 32 && x / 16 / 4 == x / 64 && x / 16 / 8 == x / 128
  {
  }

  lemma BitDown(x: nat, k: nat)
    requires k >= 4
    ensures BitOf(x, k) <==> BitOf(x / 16, k - 4)
  {
    assert BitOf(x, k) <==> BitOf(x / 2 / 2, k - 2);
    assert BitOf(x / 4, k - 2) <==> BitOf(x / 4 / 2 / 2, k - 4);
  }

  lemma LowBits(x: nat, k: nat)
    requires k < 4
    ensures BitOf(x, k) <==> x / [1, 2, 4, 8][k] % 2 == 1
  {
    assert k >= 2 ==> (BitOf(x, k) <==> BitOf(x / 2 / 2, k - 2));
  }

  /** The bit of block b is bit b % 8 of its byte, the lowest being the first. */
  lemma BitIs(bmap: seq<Block>, b: nat)
    requires b / 4096 < |bmap|
    ensures Bit(bmap, b) <==> bmap[b / 4096][b % 4096 / 8] / [1, 2, 4, 8, 16, 32, 64, 128][b % 8] % 2 == 1
  {
    hide BitOf;
    BitWeight(bmap[b / 4096][b % 4096 / 8], b % 8);
  }

  /** A block number is its bitmap block, the byte in it and the bit in that. */
  lemma BitPlace(b: nat)
    ensures b == b / BPB * BPB + b % BPB / 8 * 8 + b % 8
  {
    assert b % 8 == b % BPB % 8;
  }

  lemma WithBitIs(bmap: seq<Block>, b: nat, on: bool, c: nat)
    requires b / BPB < |bmap| && c / BPB < |bmap|
    ensures Bit(WithBit(bmap, b, on), c) == if b == c then on else Bit(bmap, c)
  {
    hide BitOf, PutBit;
    BitPut(bmap[b / BPB][b % BPB / 8], b % 8, on, c % 8);
    BitPlace(b);
    BitPlace(c);
  }
}
