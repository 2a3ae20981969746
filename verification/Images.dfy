/** A volume on a disk: which block holds what, and how the edits that the code makes
    in single blocks change the volume that the disk holds. */
module Images {
  import opened Blocks
  import opened Volume
  import opened FileSystem
  import opened DiskFormat
  import P = LogProtocol
  import opened Journal

  // ------------------------------------------------------------------
  // What a disk holds
  // ------------------------------------------------------------------

  /** Inodes, log, bitmap and data follow each other, as mkfs lays them out. */
  predicate Laid(g: Geo, ls: nat, n: nat) {
    && g.inodeStart + (g.ninodes + INODES_PER_BLOCK - 1) / INODES_PER_BLOCK <= ls
    && ls + P.LOG_SIZE < g.bmapStart
    && g.bmapStart + (g.nbits + BITS_PER_BLOCK - 1) / BITS_PER_BLOCK <= g.bd
    && g.bd + g.nbits <= n
  }

  function BitmapBlockNo(g: Geo, b: nat): nat { g.bmapStart + b / BITS_PER_BLOCK }
  function DataBlockNo(g: Geo, b: nat): nat { g.bd + b }

  /** What block number `x` has to hold of volume `v`. */
  ghost predicate StoresAt(blk: Block, x: int, g: Geo, v: Vol)
    requires Shape(v, g)
  {
    && (forall i: nat :: i < g.ninodes && InodeBlockNo(g, i) == x ==> InodeAt(blk, i % INODES_PER_BLOCK) == v.tab[i])
    && (forall b: nat :: b < g.nbits && BitmapBlockNo(g, b) == x ==> (BitAt(blk, b % BITS_PER_BLOCK) <==> v.bits[b]))
    && (forall b: nat :: b < g.nbits && DataBlockNo(g, b) == x ==> blk == v.data[b])
  }

  /** The disk holds the volume. */
  ghost predicate Represents(d: Disk, g: Geo, v: Vol) {
    Shape(v, g) && forall x :: 0 <= x < |d| ==> StoresAt(d[x], x, g, v)
  }

  lemma InodeRange(n: nat, i: nat)
    requires i < n
    ensures i / INODES_PER_BLOCK < (n + INODES_PER_BLOCK - 1) / INODES_PER_BLOCK
  {
  }

  lemma BitRange(n: nat, b: nat)
    requires b < n
    ensures b / BITS_PER_BLOCK < (n + BITS_PER_BLOCK - 1) / BITS_PER_BLOCK
  {
  }

  /** The regions do not overlap. */
  lemma InodeBlockLies(g: Geo, ls: nat, n: nat, i: nat)
    requires Laid(g, ls, n) && i < g.ninodes
    ensures g.inodeStart <= InodeBlockNo(g, i) < g.inodeStart + (g.ninodes + INODES_PER_BLOCK - 1) / INODES_PER_BLOCK <= ls
  {
    InodeRange(g.ninodes, i);
  }

  lemma BitmapBlockLies(g: Geo, ls: nat, n: nat, b: nat)
    requires Laid(g, ls, n) && b < g.nbits
    ensures ls + P.LOG_SIZE < g.bmapStart <= BitmapBlockNo(g, b) < g.bd
  {
    BitRange(g.nbits, b);
  }

  /** Log blocks hold nothing of the volume. */
  lemma LogBlocksFree(g: Geo, ls: nat, n: nat, blk: Block, x: int, v: Vol)
    requires Laid(g, ls, n) && Shape(v, g) && ls <= x <= ls + P.LOG_SIZE
    ensures StoresAt(blk, x, g, v)
  {
    hide InodeAt, BitAt, Laid, InodeBlockNo, BitmapBlockNo;
    forall i: nat | i < g.ninodes ensures InodeBlockNo(g, i) < ls { InodeBlockLies(g, ls, n, i); }
    forall b: nat | b < g.nbits ensures ls + P.LOG_SIZE < BitmapBlockNo(g, b) { BitmapBlockLies(g, ls, n, b); }
    LogBeforeData(g, ls, n);
  }

  lemma LogBeforeData(g: Geo, ls: nat, n: nat)
    requires Laid(g, ls, n)
    ensures ls + P.LOG_SIZE < g.bd
  {
  }

  /** Blocks of the volume are home blocks of the journal. */
  lemma HomeBlocksAreHome(d: Disk, g: Geo, ls: nat, x: nat)
    requires Laid(g, ls, |d|) && HomeBlock(g, x)
    ensures Home(d, ls, x)
  {
    if DataAddr(g, x) {
    } else if g.bmapStart <= x && BITS_PER_BLOCK * (x - g.bmapStart) < g.nbits {
      BitRange(g.nbits, BITS_PER_BLOCK * (x - g.bmapStart));
    } else {
      InodeRange(g.ninodes, INODES_PER_BLOCK * (x - g.inodeStart));
    }
  }

  // ------------------------------------------------------------------
  // Edits of single blocks
  // ------------------------------------------------------------------

  /** A block that was not logged holds of the new volume what it held of the old. */
  lemma UnloggedBlock(blk: Block, x: nat, g: Geo, v: Vol, w: Vol, dirty: set<nat>)
    requires Shape(v, g) && Shape(w, g) && Follows(g, ImageOf(v, {}), ImageOf(w, dirty)) && x !in dirty && StoresAt(blk, x, g, v)
    ensures StoresAt(blk, x, g, w)
  {
    hide InodeAt, BitAt;
  }

  lemma Edited(d: Disk, g: Geo, v: Vol, w: Vol, x: nat, blk: Block)
    requires Represents(d, g, v) && Shape(w, g) && Follows(g, ImageOf(v, {}), ImageOf(w, {x}))
    requires x < |d| && StoresAt(blk, x, g, w)
    ensures Represents(d[x := blk], g, w)
  {
    hide StoresAt, Follows, Shape;
    var e := d[x := blk];
    forall y | 0 <= y < |e| ensures StoresAt(e[y], y, g, w) {
      if y != x { UnloggedBlock(d[y], y, g, v, w, {x}); }
    }
  }

  /** A block in which one bit of the bitmap has been given its new value. */
  lemma BitStores(d: Disk, g: Geo, ls: nat, v: Vol, b: nat, val: bool, blk: Block)
    requires Laid(g, ls, |d|) && Represents(d, g, v) && b < g.nbits && BitmapBlockNo(g, b) < |d|
    requires forall j: nat :: j < BITS_PER_BLOCK ==>
               (BitAt(blk, j) <==> if j == b % BITS_PER_BLOCK then val else BitAt(d[BitmapBlockNo(g, b)], j))
    ensures StoresAt(blk, BitmapBlockNo(g, b), g, v.(bits := v.bits[b := val]))
  {
    hide BitAt, InodeAt, Laid;
    var x, w := BitmapBlockNo(g, b), v.(bits := v.bits[b := val]);
    BitmapBlockLies(g, ls, |d|, b);
    assert StoresAt(d[x], x, g, v);
    forall c: nat | c < g.nbits && BitmapBlockNo(g, c) == x ensures BitAt(blk, c % BITS_PER_BLOCK) <==> w.bits[c] {
      SamePlace(b, c, BITS_PER_BLOCK);
    }
    forall i: nat | i < g.ninodes ensures InodeBlockNo(g, i) != x { InodeBlockLies(g, ls, |d|, i); }
  }

  lemma SamePlace(b: nat, c: nat, m: nat)
    requires m > 0
    ensures b / m == c / m && b % m == c % m ==> b == c
  {
    assert b == m * (b / m) + b % m && c == m * (c / m) + c % m;
  }

  lemma BitFollows(g: Geo, v: Vol, b: nat, val: bool)
    requires b < |v.bits| == g.nbits
    ensures Follows(g, ImageOf(v, {}), ImageOf(v.(bits := v.bits[b := val]), {BitmapBlockNo(g, b)}))
  {
  }

  /** balloc's `|= m`: the disk holds the volume with the bit set. */
  lemma BitSetOnDisk(d: Disk, g: Geo, ls: nat, v: Vol, b: nat)
    requires Laid(g, ls, |d|) && Represents(d, g, v) && b < g.nbits && !v.bits[b]
    ensures var x := BitmapBlockNo(g, b);
            && x < |d| && !BitAt(d[x], b % BITS_PER_BLOCK)
            && Represents(d[x := SetBit(d[x], b % BITS_PER_BLOCK)], g, v.(bits := v.bits[b := true]))
  {
    hide BitAt, InodeAt, SetBit, Follows;
    var x := BitmapBlockNo(g, b);
    BitmapBlockLies(g, ls, |d|, b);
    assert StoresAt(d[x], x, g, v);
    hide StoresAt;
    BitStores(d, g, ls, v, b, true, SetBit(d[x], b % BITS_PER_BLOCK));
    BitFollows(g, v, b, true);
    Edited(d, g, v, v.(bits := v.bits[b := true]), x, SetBit(d[x], b % BITS_PER_BLOCK));
  }

  /** bfree's `&= ~m`. */
  lemma BitClearedOnDisk(d: Disk, g: Geo, ls: nat, v: Vol, b: nat)
    requires Laid(g, ls, |d|) && Represents(d, g, v) && b < g.nbits && v.bits[b]
    ensures var x := BitmapBlockNo(g, b);
            && x < |d| && BitAt(d[x], b % BITS_PER_BLOCK)
            && Represents(d[x := ClearBit(d[x], b % BITS_PER_BLOCK)], g, v.(bits := v.bits[b := false]))
  {
    hide BitAt, InodeAt, ClearBit, Follows;
    var x := BitmapBlockNo(g, b);
    BitmapBlockLies(g, ls, |d|, b);
    assert StoresAt(d[x], x, g, v);
    hide StoresAt;
    BitStores(d, g, ls, v, b, false, ClearBit(d[x], b % BITS_PER_BLOCK));
    BitFollows(g, v, b, false);
    Edited(d, g, v, v.(bits := v.bits[b := false]), x, ClearBit(d[x], b % BITS_PER_BLOCK));
  }

  /** The block as inode_update's memcpy leaves it. */
  function WithInode(blk: Block, i: nat, e: Dinode): Block
    requires Storable(e)
  {
    PutWords(blk, INODE_WORDS * (i % INODES_PER_BLOCK), InodeWords(e))
  }

  lemma InodeStores(d: Disk, g: Geo, ls: nat, v: Vol, i: nat, e: Dinode)
    requires Laid(g, ls, |d|) && Represents(d, g, v) && i < g.ninodes && Storable(e) && InodeBlockNo(g, i) < |d|
    ensures StoresAt(WithInode(d[InodeBlockNo(g, i)], i, e), InodeBlockNo(g, i), g, v.(tab := v.tab[i := e]))
  {
    hide BitAt, InodeAt, PutWords, InodeWords, Laid;
    var x, w := InodeBlockNo(g, i), v.(tab := v.tab[i := e]);
    InodeBlockLies(g, ls, |d|, i);
    assert StoresAt(d[x], x, g, v);
    InodeRoundTrip(d[x], i % INODES_PER_BLOCK, e);
    var blk := WithInode(d[x], i, e);
    forall j: nat | j < g.ninodes && InodeBlockNo(g, j) == x ensures InodeAt(blk, j % INODES_PER_BLOCK) == w.tab[j] {
      SamePlace(i, j, INODES_PER_BLOCK);
    }
    forall b: nat | b < g.nbits ensures BitmapBlockNo(g, b) != x { BitmapBlockLies(g, ls, |d|, b); }
    LogBeforeData(g, ls, |d|);
  }

  lemma InodeFollows(g: Geo, v: Vol, i: nat, e: Dinode)
    requires i < |v.tab| == g.ninodes
    ensures Follows(g, ImageOf(v, {}), ImageOf(v.(tab := v.tab[i := e]), {InodeBlockNo(g, i)}))
  {
  }

  /** inode_update: the disk holds the volume with that inode. */
  lemma InodeOnDisk(d: Disk, g: Geo, ls: nat, v: Vol, i: nat, e: Dinode)
    requires Laid(g, ls, |d|) && Represents(d, g, v) && i < g.ninodes && Storable(e)
    ensures var x := InodeBlockNo(g, i);
            x < |d| && Represents(d[x := WithInode(d[x], i, e)], g, v.(tab := v.tab[i := e]))
  {
    hide StoresAt, WithInode, Follows;
    InodeBlockLies(g, ls, |d|, i);
    InodeStores(d, g, ls, v, i, e);
    InodeFollows(g, v, i, e);
    Edited(d, g, v, v.(tab := v.tab[i := e]), InodeBlockNo(g, i), WithInode(d[InodeBlockNo(g, i)], i, e));
  }

  /** A store into a data block. */
  lemma DataOnDisk(d: Disk, g: Geo, ls: nat, v: Vol, b: nat, blk: Block)
    requires Laid(g, ls, |d|) && Represents(d, g, v) && b < g.nbits
    ensures g.bd + b < |d| && Represents(d[g.bd + b := blk], g, v.(data := v.data[b := blk]))
  {
    hide BitAt, InodeAt;
    var x, w := DataBlockNo(g, b), v.(data := v.data[b := blk]);
    forall i: nat | i < g.ninodes ensures InodeBlockNo(g, i) != x { InodeBlockLies(g, ls, |d|, i); }
    forall c: nat | c < g.nbits ensures BitmapBlockNo(g, c) != x { BitmapBlockLies(g, ls, |d|, c); }
    assert StoresAt(blk, x, g, w);
    Edited(d, g, v, w, x, blk);
  }

  /** balloc with its bzero: the disk holds the volume that `Alloc` specifies. */
  lemma AllocOnDisk(d: Disk, g: Geo, ls: nat, v: Vol, b: nat)
    requires Laid(g, ls, |d|) && Represents(d, g, v) && b < g.nbits && !v.bits[b]
    ensures var x := BitmapBlockNo(g, b);
            && x < |d| && g.bd + b < |d| && !BitAt(d[x], b % BITS_PER_BLOCK)
            && Represents(d[x := SetBit(d[x], b % BITS_PER_BLOCK)][g.bd + b := ZeroBlock()], g, Alloc(v, b))
  {
    hide BitAt, SetBit, StoresAt, ZeroBlock;
    BitSetOnDisk(d, g, ls, v, b);
    var x := BitmapBlockNo(g, b);
    DataOnDisk(d[x := SetBit(d[x], b % BITS_PER_BLOCK)], g, ls, v.(bits := v.bits[b := true]), b, ZeroBlock());
  }

  // ------------------------------------------------------------------
  // A block for each place
  // ------------------------------------------------------------------

  lemma {:induction false} NoBits(k: nat)
    ensures !Bit(0, k)
  {
    if k > 0 { NoBits(k - 1); }
  }

  lemma ZeroBits(i: nat)
    requires i < BITS_PER_BLOCK
    ensures !BitAt(ZeroBlock(), i)
  {
    NoBits(i % 8);
  }

  /** A bitmap block with the bits from `first` on, the first `k` of them filled in. */
  function PackBits(bits: seq<bool>, first: nat, k: nat): (r: Block)
    requires k <= BITS_PER_BLOCK
    ensures forall j: nat :: j < BITS_PER_BLOCK ==> (BitAt(r, j) <==> j < k && first + j < |bits| && bits[first + j])
  {
    if k == 0 then
      assert forall j: nat :: j < BITS_PER_BLOCK ==> !BitAt(ZeroBlock(), j) by { forall j: nat | j < BITS_PER_BLOCK ensures !BitAt(ZeroBlock(), j) { ZeroBits(j); } }
      ZeroBlock()
    else
      var b := PackBits(bits, first, k - 1);
      if first + k - 1 < |bits| && bits[first + k - 1] then SetBit(b, k - 1) else b
  }

  /** An inode block with the inodes from `first` on, the first `k` of them filled in. */
  function PackInodes(tab: seq<Dinode>, first: nat, k: nat): (r: Block)
    requires k <= INODES_PER_BLOCK && AllStorable(tab)
  {
    if k == 0 then ZeroBlock()
    else
      var b := PackInodes(tab, first, k - 1);
      if first + k - 1 < |tab| then PutWords(b, INODE_WORDS * (k - 1), InodeWords(tab[first + k - 1])) else b
  }

  predicate AllStorable(tab: seq<Dinode>) {
    forall i :: 0 <= i < |tab| ==> Storable(tab[i])
  }

  lemma {:induction false} PackedInode(tab: seq<Dinode>, first: nat, k: nat, j: nat)
    requires j < k <= INODES_PER_BLOCK && first + j < |tab| && AllStorable(tab)
    ensures InodeAt(PackInodes(tab, first, k), j) == tab[first + j]
  {
    hide InodeAt, PutWords, InodeWords, Storable, ZeroBlock;
    if first + k - 1 < |tab| { InodeRoundTrip(PackInodes(tab, first, k - 1), k - 1, tab[first + k - 1]); }
    if j < k - 1 { PackedInode(tab, first, k - 1, j); }
  }

  function BlockFor(g: Geo, v: Vol, x: nat): Block
    requires Shape(v, g) && AllStorable(v.tab)
  {
    if g.bd <= x < g.bd + g.nbits then v.data[x - g.bd]
    else if g.bmapStart <= x < g.bd then PackBits(v.bits, BITS_PER_BLOCK * (x - g.bmapStart), BITS_PER_BLOCK)
    else if g.inodeStart <= x < g.inodeStart + (g.ninodes + INODES_PER_BLOCK - 1) / INODES_PER_BLOCK then
      PackInodes(v.tab, INODES_PER_BLOCK * (x - g.inodeStart), INODES_PER_BLOCK)
    else ZeroBlock()
  }

  lemma BlockForInode(g: Geo, ls: nat, n: nat, v: Vol, i: nat)
    requires Laid(g, ls, n) && Shape(v, g) && AllStorable(v.tab) && i < g.ninodes
    ensures InodeAt(BlockFor(g, v, InodeBlockNo(g, i)), i % INODES_PER_BLOCK) == v.tab[i]
  {
    hide InodeAt, PackBits, PackInodes, AllStorable;
    InodeBlockLies(g, ls, n, i);
    var first := INODES_PER_BLOCK * (i / INODES_PER_BLOCK);
    assert i == first + i % INODES_PER_BLOCK;
    PackedInode(v.tab, first, INODES_PER_BLOCK, i % INODES_PER_BLOCK);
  }

  lemma BlockForBit(g: Geo, ls: nat, n: nat, v: Vol, b: nat)
    requires Laid(g, ls, n) && Shape(v, g) && AllStorable(v.tab) && b < g.nbits
    ensures BitAt(BlockFor(g, v, BitmapBlockNo(g, b)), b % BITS_PER_BLOCK) <==> v.bits[b]
  {
    hide BitAt, PackBits, PackInodes, AllStorable;
    BitmapBlockLies(g, ls, n, b);
    var first := BITS_PER_BLOCK * (b / BITS_PER_BLOCK);
    assert b == first + b % BITS_PER_BLOCK;
    assert BlockFor(g, v, BitmapBlockNo(g, b)) == PackBits(v.bits, first, BITS_PER_BLOCK);
  }

  lemma BlockForStores(g: Geo, ls: nat, n: nat, v: Vol, x: nat)
    requires Laid(g, ls, n) && Shape(v, g) && AllStorable(v.tab)
    ensures StoresAt(BlockFor(g, v, x), x, g, v)
  {
    hide InodeAt, BitAt, PackBits, PackInodes, AllStorable, InodeBlockNo, BitmapBlockNo, Laid;
    forall i: nat | i < g.ninodes && InodeBlockNo(g, i) == x
      ensures InodeAt(BlockFor(g, v, x), i % INODES_PER_BLOCK) == v.tab[i]
    {
      BlockForInode(g, ls, n, v, i);
    }
    forall b: nat | b < g.nbits && BitmapBlockNo(g, b) == x
      ensures BitAt(BlockFor(g, v, x), b % BITS_PER_BLOCK) <==> v.bits[b]
    {
      BlockForBit(g, ls, n, v, b);
    }
  }
}
