/** How a volume lies in disk blocks: bitmap bits in bytes, seven inodes of
    seventeen words to a block. */
module DiskFormat {
  import opened Blocks
  import opened Volume

  // ------------------------------------------------------------------
  // Bitmap blocks
  // ------------------------------------------------------------------

  /** `1 << k` */
  function Mask(k: nat): nat {
    if k == 0 then 1 else 2 * Mask(k - 1)
  }

  /** `x & (1 << k)` */
  predicate Bit(x: nat, k: nat) {
    if k == 0 then x % 2 == 1 else Bit(x / 2, k - 1)
  }

  /** `x | (1 << k)` on a clear bit and `x & ~(1 << k)` on a set one leave the
      other bits alone. */
  lemma {:induction false} MaskAdded(x: nat, k: nat, j: nat)
    requires !Bit(x, k)
    ensures Bit(x + Mask(k), j) <==> j == k || Bit(x, j)
    decreases k
  {
    if k > 0 {
      assert (x + Mask(k)) / 2 == x / 2 + Mask(k - 1) && (x + Mask(k)) % 2 == x % 2;
      if j > 0 { MaskAdded(x / 2, k - 1, j - 1); }
    }
  }

  lemma {:induction false} MaskTaken(x: nat, k: nat, j: nat)
    requires Bit(x, k)
    ensures Mask(k) <= x && (Bit(x - Mask(k), j) <==> j != k && Bit(x, j))
    decreases k
  {
    if k > 0 {
      MaskTaken(x / 2, k - 1, if j > 0 then j - 1 else 0);
      assert (x - Mask(k)) / 2 == x / 2 - Mask(k - 1) && (x - Mask(k)) % 2 == x % 2;
    }
  }

  /** A byte with a clear bit has room for it. */
  lemma {:induction false} MaskRoom(x: nat, k: nat, n: nat)
    requires !Bit(x, k) && k < n && x < Mask(n)
    ensures x + Mask(k) < Mask(n)
    decreases k
  {
    var h, m := x / 2, Mask(n - 1);
    assert Mask(n) == 2 * m && x == 2 * h + x % 2;
    assert h < m;
    if k > 0 {
      MaskRoom(h, k - 1, n - 1);
      assert Mask(k) == 2 * Mask(k - 1) && h + Mask(k - 1) + 1 <= m;
    }
  }

  lemma ByteMask()
    ensures Mask(8) == 256
  {
    assert Mask(3) == 8;
    assert Mask(6) == 64;
  }

  predicate BitAt(blk: Block, i: nat)
    requires i < BITS_PER_BLOCK
  {
    Bit(blk[i / 8], i % 8)
  }

  /** The bit that balloc sets. */
  function SetBit(blk: Block, i: nat): (r: Block)
    requires i < BITS_PER_BLOCK && !BitAt(blk, i)
    ensures forall j: nat :: j < BITS_PER_BLOCK ==> (BitAt(r, j) <==> j == i || BitAt(blk, j))
  {
    ByteMask();
    MaskRoom(blk[i / 8], i % 8, 8);
    var r: Block := blk[i / 8 := blk[i / 8] + Mask(i % 8)];
    assert forall j: nat :: j < BITS_PER_BLOCK ==> (BitAt(r, j) <==> j == i || BitAt(blk, j)) by { SetBitIs(blk, i, r); }
    r
  }

  lemma SetBitIs(blk: Block, i: nat, r: Block)
    requires i < BITS_PER_BLOCK && !BitAt(blk, i) && blk[i / 8] + Mask(i % 8) < 256 && r == blk[i / 8 := blk[i / 8] + Mask(i % 8)]
    ensures forall j: nat :: j < BITS_PER_BLOCK ==> (BitAt(r, j) <==> j == i || BitAt(blk, j))
  {
    hide Mask, Bit;
    forall j: nat | j < BITS_PER_BLOCK ensures BitAt(r, j) <==> j == i || BitAt(blk, j) {
      if j / 8 == i / 8 { MaskAdded(blk[i / 8], i % 8, j % 8); }
    }
  }

  /** The bit that bfree clears. */
  function ClearBit(blk: Block, i: nat): (r: Block)
    requires i < BITS_PER_BLOCK && BitAt(blk, i)
    ensures forall j: nat :: j < BITS_PER_BLOCK ==> (BitAt(r, j) <==> j != i && BitAt(blk, j))
  {
    MaskTaken(blk[i / 8], i % 8, 0);
    var r: Block := blk[i / 8 := blk[i / 8] - Mask(i % 8)];
    assert forall j: nat :: j < BITS_PER_BLOCK ==> (BitAt(r, j) <==> j != i && BitAt(blk, j)) by { ClearBitIs(blk, i, r); }
    r
  }

  lemma ClearBitIs(blk: Block, i: nat, r: Block)
    requires i < BITS_PER_BLOCK && BitAt(blk, i) && blk[i / 8] >= Mask(i % 8) && r == blk[i / 8 := blk[i / 8] - Mask(i % 8)]
    ensures forall j: nat :: j < BITS_PER_BLOCK ==> (BitAt(r, j) <==> j != i && BitAt(blk, j))
  {
    hide Mask, Bit;
    forall j: nat | j < BITS_PER_BLOCK ensures BitAt(r, j) <==> j != i && BitAt(blk, j) {
      if j / 8 == i / 8 { MaskTaken(blk[i / 8], i % 8, j % 8); }
    }
  }

  // ------------------------------------------------------------------
  // Inode blocks
  // ------------------------------------------------------------------

  const INODE_WORDS: nat := 17

  function TypeWord(t: InodeType): uint32 {
    match t case NONE => 0 case FILE => 1 case DIRECTORY => 2 case DEVICE => 3
  }

  function WordType(w: uint32): InodeType {
    if w == 1 then FILE else if w == 2 then DIRECTORY else if w == 3 then DEVICE else NONE
  }

  /** int32_t in two's complement. */
  function Signed(w: uint32): int { if w < 0x8000_0000 then w else w - 0x1_0000_0000 }
  function Unsigned(x: int): uint32
    requires -0x8000_0000 <= x < 0x8000_0000
  {
    if x >= 0 then x else x + 0x1_0000_0000
  }

  /** The fields fit their C types. */
  predicate Storable(d: Dinode) {
    && d.nlink < 0x1_0000_0000 && d.size < 0x1_0000_0000 && |d.addrs| == NDIRECT + 1
    && -0x8000_0000 <= d.major < 0x8000_0000 && -0x8000_0000 <= d.minor < 0x8000_0000
  }

  /** struct dinode as words. */
  function InodeWords(d: Dinode): (ws: seq<uint32>)
    requires Storable(d)
    ensures |ws| == INODE_WORDS
  {
    [TypeWord(d.typ), d.nlink, d.size, Unsigned(d.major), Unsigned(d.minor)] + d.addrs
  }

  /** `(struct dinode *) blk + j` */
  function InodeAt(blk: Block, j: nat): (d: Dinode)
    requires j < INODES_PER_BLOCK
    ensures |d.addrs| == NDIRECT + 1
  {
    var at := INODE_WORDS * j;
    Dinode(WordType(Word(blk, at)), Word(blk, at + 1), Word(blk, at + 2), Signed(Word(blk, at + 3)), Signed(Word(blk, at + 4)),
           WordsFrom(blk, at + 5, NDIRECT + 1))
  }

  function WordsFrom(blk: Block, at: nat, n: nat): (ws: seq<uint32>)
    requires at + n <= WORDS_PER_BLOCK
    ensures |ws| == n && forall k :: 0 <= k < n ==> ws[k] == Word(blk, at + k)
  {
    if n == 0 then [] else WordsFrom(blk, at, n - 1) + [Word(blk, at + n - 1)]
  }

  function PutWords(blk: Block, at: nat, ws: seq<uint32>): (r: Block)
    requires at + |ws| <= WORDS_PER_BLOCK
    ensures forall n: nat :: n < WORDS_PER_BLOCK ==> Word(r, n) == if at <= n < at + |ws| then ws[n - at] else Word(blk, n)
  {
    if ws == [] then blk else PutWord(PutWords(blk, at, ws[..|ws| - 1]), at + |ws| - 1, ws[|ws| - 1])
  }

  /** The memcpy of inode_update: that inode reads back, the others are kept. */
  lemma InodeRoundTrip(blk: Block, j: nat, d: Dinode)
    requires j < INODES_PER_BLOCK && Storable(d)
    ensures var r := PutWords(blk, INODE_WORDS * j, InodeWords(d));
            && InodeAt(r, j) == d
            && forall i: nat :: i < INODES_PER_BLOCK && i != j ==> InodeAt(r, i) == InodeAt(blk, i)
  {
    hide Word, PutWords, WordsFrom;
    var at, ws := INODE_WORDS * j, InodeWords(d);
    var r := PutWords(blk, at, ws);
    assert InodeAt(r, j).addrs == d.addrs;
    forall i: nat | i < INODES_PER_BLOCK && i != j ensures InodeAt(r, i) == InodeAt(blk, i) {
      assert InodeAt(r, i).addrs == InodeAt(blk, i).addrs;
    }
  }
}
