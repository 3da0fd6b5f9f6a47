/** Disk blocks as byte sequences, with the little-endian 32-bit words that the
    kernel reads and writes through `uint*` and `struct logheader*` casts. */
module Blocks {
  const BSIZE: nat := 1024
  const WORDS: nat := 256
  const TWO32: nat := 0x1_0000_0000

  type Byte = x: int | 0 <= x < 256
  type Block = b: seq<Byte> | |b| == 1024 witness seq(1024, _ => 0)

  /** What bzero and memset leave in a block. */
  function ZeroBlock(): (z: Block)
    ensures forall i | 0 <= i < BSIZE :: z[i] == 0
  {
    seq(1024, _ => 0)
  }

  /** Word i of a block. */
  function Word(b: Block, i: nat): (w: nat)
    requires i < WORDS
    ensures w < TWO32
  {
    var b0: int, b1: int, b2: int, b3: int := b[4 * i], b[4 * i + 1], b[4 * i + 2], b[4 * i + 3];
    b0 + 0x100 * b1 + 0x1_0000 * b2 + 0x100_0000 * b3
  }

  /** The block with word i replaced. */
  function WithWord(b: Block, i: nat, w: nat): (r: Block)
    requires i < WORDS && w < TWO32
    ensures Word(r, i) == w
    ensures forall j: nat | j < WORDS && j != i :: Word(r, j) == Word(b, j)
  {
    b[..4 * i] + [w % 0x100, w / 0x100 % 0x100, w / 0x1_0000 % 0x100, w / 0x100_0000] + b[4 * i + 4..]
  }

  lemma ZeroWords(i: nat)
    requires i < WORDS
    ensures Word(ZeroBlock(), i) == 0
  {
  }
}
