/** Disk blocks as the kernel sees them: 512 bytes, read either as bytes or,
    through a cast to `uint32_t *`, as 128 little-endian words. */
module Blocks {

  const BLOCK_SIZE: nat := 512
  const WORDS_PER_BLOCK: nat := 128

  type byte = x: int | 0 <= x < 256
  type uint32 = x: int | 0 <= x < 0x1_0000_0000
  type Block = b: seq<byte> | |b| == BLOCK_SIZE witness seq(BLOCK_SIZE, _ => 0)

  /** `((uint32_t *) b)[i]` on a little-endian machine. */
  function Word(b: Block, i: nat): uint32
    requires i < WORDS_PER_BLOCK
  {
    var b0: int, b1: int, b2: int, b3: int := b[4 * i], b[4 * i + 1], b[4 * i + 2], b[4 * i + 3];
    b0 + 0x100 * b1 + 0x1_0000 * b2 + 0x100_0000 * b3
  }

  lemma FourBytes(w: uint32)
    ensures w % 0x100 + 0x100 * (w / 0x100 % 0x100) + 0x1_0000 * (w / 0x1_0000 % 0x100) + 0x100_0000 * (w / 0x100_0000) == w
    ensures w / 0x100_0000 < 0x100
  {
    var x, y := w / 0x100, w / 0x1_0000;
    assert y == x / 0x100 && w / 0x100_0000 == y / 0x100;
  }

  /** `((uint32_t *) b)[i] = w`: word `i` reads back as `w`, all other words are kept. */
  function PutWord(b: Block, i: nat, w: uint32): (r: Block)
    requires i < WORDS_PER_BLOCK
    ensures Word(r, i) == w
    ensures forall j: nat :: j < WORDS_PER_BLOCK && j != i ==> Word(r, j) == Word(b, j)
  {
    FourBytes(w);
    b[4 * i := w % 0x100][4 * i + 1 := w / 0x100 % 0x100]
     [4 * i + 2 := w / 0x1_0000 % 0x100][4 * i + 3 := w / 0x100_0000]
  }

  /** A block of zeros, whichever way it is read. */
  function ZeroBlock(): (r: Block)
    ensures forall j :: 0 <= j < BLOCK_SIZE ==> r[j] == 0
    ensures forall j: nat :: j < WORDS_PER_BLOCK ==> Word(r, j) == 0
  {
    seq(BLOCK_SIZE, j => 0)
  }
}
