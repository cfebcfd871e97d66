/** Disk blocks as bytes, and the 32-bit little-endian words the kernel reads out of them. */
module Blocks {
  import opened Basics

  const BSIZE: nat := 512
  const WORDS: nat := 128 // BSIZE / sizeof(uint)

  type Block = b: seq<byte> | |b| == BSIZE ghost witness seq(BSIZE, i => 0)

  /** The i-th 32-bit word of a block. */
  function GetWord(b: Block, i: nat): word
    requires i < WORDS
  {
    b[4 * i] as int + 0x100 * b[4 * i + 1] as int +
    0x1_0000 * b[4 * i + 2] as int + 0x100_0000 * b[4 * i + 3] as int
  }

  /** The block with its i-th word changed. */
  function PutWord(b: Block, i: nat, w: word): Block
    requires i < WORDS
  {
    var low := b[4 * i := w % 0x100][4 * i + 1 := w / 0x100 % 0x100];
    low[4 * i + 2 := w / 0x1_0000 % 0x100][4 * i + 3 := w / 0x100_0000]
  }

  lemma GetPut(b: Block, i: nat, w: word, j: nat)
    requires i < WORDS && j < WORDS
    ensures GetWord(PutWord(b, i, w), j) == if i == j then w else GetWord(b, j)
  {
    BytesOf(w);
    var r := PutWord(b, i, w);
    if i != j {
      assert r[4 * j] == b[4 * j] && r[4 * j + 1] == b[4 * j + 1];
      assert r[4 * j + 2] == b[4 * j + 2] && r[4 * j + 3] == b[4 * j + 3];
    }
  }

  lemma BytesOf(w: word)
    ensures w == w % 0x100 + 0x100 * (w / 0x100 % 0x100) +
                 0x1_0000 * (w / 0x1_0000 % 0x100) + 0x100_0000 * (w / 0x100_0000)
  {
    assert w / 0x1_0000 == w / 0x100 / 0x100 && w / 0x100_0000 == w / 0x1_0000 / 0x100;
  }
}
