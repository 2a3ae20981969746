/** The on-disk state of the file system and who owns its data blocks.

    A data block is named by its bit in the bitmap; its disk address is
    `bd + bit`.  The blocks of an inode sit at positions 0..138 of the file and
    the indirect block at position 139. */
module Volume {
  import opened Blocks

  const NDIRECT: nat := 11
  const MAX_BLOCKS: nat := NDIRECT + WORDS_PER_BLOCK
  const INDIRECT: nat := MAX_BLOCKS
  const BITS_PER_BLOCK: nat := 8 * BLOCK_SIZE
  const INODES_PER_BLOCK: nat := 7

  datatype InodeType = NONE | FILE | DIRECTORY | DEVICE

  datatype Dinode = Dinode(typ: InodeType, nlink: nat, size: nat, major: int, minor: int,
                           addrs: seq<uint32>)

  datatype Geo = Geo(inodeStart: nat, bmapStart: nat, bd: nat, nbits: nat, ninodes: nat)

  /** `tab` holds the inodes as the kernel works with them. */
  datatype Vol = Vol(bits: seq<bool>, data: seq<Block>, tab: seq<Dinode>)

  datatype Owner = Owner(inum: int, pos: int)

  /** Book-keeping of ownership: the owner of each allocated block, how many
      file blocks each inode has, and which inodes have an indirect block. */
  datatype Book = Book(owner: map<int, Owner>, nb: seq<nat>, ind: set<int>)

  predicate Shape(v: Vol, g: Geo) {
    && |v.bits| == |v.data| == g.nbits && |v.tab| == g.ninodes
    && 0 < g.bd && g.bd + g.nbits <= 0x1_0000_0000
    && forall i :: 0 <= i < |v.tab| ==> |v.tab[i].addrs| == NDIRECT + 1
  }

  predicate DataAddr(g: Geo, a: int) {
    g.bd <= a < g.bd + g.nbits
  }

  predicate Inum(g: Geo, i: int) {
    0 <= i < g.ninodes
  }

  /** The block address recorded at a position; 0 if there is none. */
  function Addr(v: Vol, g: Geo, i: int, pos: int): nat
    requires Shape(v, g) && Inum(g, i) && 0 <= pos <= INDIRECT
  {
    var a := v.tab[i].addrs;
    if pos < NDIRECT then a[pos]
    else if pos == INDIRECT then a[NDIRECT]
    else if DataAddr(g, a[NDIRECT]) then Word(v.data[a[NDIRECT] - g.bd], pos - NDIRECT)
    else 0
  }

  predicate InUse(v: Vol, g: Geo, i: int) {
    Inum(g, i) && i < |v.tab| && v.tab[i].typ != NONE
  }

  predicate Used(k: Book, i: int, pos: int)
    requires 0 <= i < |k.nb|
  {
    if pos == INDIRECT then i in k.ind else 0 <= pos < k.nb[i]
  }

  /** A used position names a block that belongs to it; an unused one holds 0. */
  predicate PosOk(v: Vol, g: Geo, k: Book, i: int, pos: int)
    requires Shape(v, g) && Inum(g, i) && 0 <= pos <= INDIRECT && |k.nb| == g.ninodes
  {
    var a := Addr(v, g, i, pos);
    if Used(k, i, pos) then DataAddr(g, a) && a - g.bd in k.owner && k.owner[a - g.bd] == Owner(i, pos)
    else a == 0
  }

  /** An owned block is allocated and recorded at its owner's position. */
  predicate BitOk(v: Vol, g: Geo, k: Book, b: int)
    requires Shape(v, g) && |k.nb| == g.ninodes && b in k.owner
  {
    var o := k.owner[b];
    && 0 <= b < g.nbits && v.bits[b]
    && InUse(v, g, o.inum) && 0 <= o.pos <= INDIRECT
    && Used(k, o.inum, o.pos) && Addr(v, g, o.inum, o.pos) == g.bd + b
  }

  /** A bitmap bit is set exactly for the blocks that one in-use inode owns at
      one position; unused positions hold address 0. */
  ghost predicate Owned(v: Vol, g: Geo, k: Book) {
    && Shape(v, g) && |k.nb| == g.ninodes
    && (forall i :: Inum(g, i) ==> k.nb[i] <= MAX_BLOCKS)
    && (forall i :: Inum(g, i) && k.nb[i] > NDIRECT ==> i in k.ind)
    && (forall i, pos :: InUse(v, g, i) && 0 <= pos <= INDIRECT ==> PosOk(v, g, k, i, pos))
    && (forall b :: b in k.owner ==> BitOk(v, g, k, b))
    && (forall b :: 0 <= b < g.nbits && v.bits[b] ==> b in k.owner)
  }

  /** The number of blocks a file of `size` bytes needs. */
  function Needed(size: nat): nat {
    (size + BLOCK_SIZE - 1) / BLOCK_SIZE
  }

  /** No holes: every in-use inode has exactly the blocks its size calls for,
      and an indirect block only if the direct ones do not suffice. */
  ghost predicate Settled(v: Vol, g: Geo, k: Book) {
    && |k.nb| == g.ninodes == |v.tab|
    && (forall i :: InUse(v, g, i) ==> k.nb[i] == Needed(v.tab[i].size))
    && (forall i :: InUse(v, g, i) ==> (i in k.ind <==> k.nb[i] > NDIRECT))
  }

  /** Byte `x` of the blocks of inode `i`. */
  function Byte(v: Vol, g: Geo, i: int, x: int): byte
    requires Shape(v, g) && Inum(g, i) && 0 <= x < MAX_BLOCKS * BLOCK_SIZE
  {
    var a := Addr(v, g, i, x / BLOCK_SIZE);
    if DataAddr(g, a) then v.data[a - g.bd][x % BLOCK_SIZE] else 0
  }

  /** The file as a byte sequence. */
  function Contents(v: Vol, g: Geo, i: int): (r: seq<byte>)
    requires Shape(v, g) && Inum(g, i) && v.tab[i].size <= MAX_BLOCKS * BLOCK_SIZE
    ensures |r| == v.tab[i].size
  {
    seq(v.tab[i].size, x requires 0 <= x < v.tab[i].size => Byte(v, g, i, x))
  }

  // ------------------------------------------------------------------
  // Steps
  // ------------------------------------------------------------------

  /** balloc: the bit is set and the block zeroed. */
  function Alloc(v: Vol, b: nat): Vol
    requires b < |v.bits| == |v.data|
  {
    v.(bits := v.bits[b := true], data := v.data[b := ZeroBlock()])
  }

  function SetAddr(v: Vol, i: nat, n: nat, a: uint32): Vol
    requires i < |v.tab| && n < |v.tab[i].addrs|
  {
    v.(tab := v.tab[i := v.tab[i].(addrs := v.tab[i].addrs[n := a])])
  }

  /** A file block is overwritten. */
  function Store(v: Vol, b: nat, blk: Block): Vol
    requires b < |v.data|
  {
    v.(data := v.data[b := blk])
  }

  predicate SameButAddrs(d: Dinode, e: Dinode) {
    e == d.(addrs := e.addrs)
  }

  /** Byte position `x` lies in a block that inode `j` has. */
  predicate Holds(v: Vol, g: Geo, k: Book, j: int, x: int)
    requires |k.nb| == g.ninodes
  {
    InUse(v, g, j) && 0 <= x < MAX_BLOCKS * BLOCK_SIZE && x / BLOCK_SIZE < k.nb[j]
  }

  /** Inodes differ at most in addresses, and all bytes are the same. */
  ghost predicate SameFiles(v: Vol, w: Vol, g: Geo, k: Book) {
    && Shape(v, g) && Shape(w, g) && |k.nb| == g.ninodes
    && (forall j :: Inum(g, j) ==> SameButAddrs(v.tab[j], w.tab[j]))
    && (forall j, x :: Holds(v, g, k, j, x) ==> Byte(w, g, j, x) == Byte(v, g, j, x))
  }

  // ------------------------------------------------------------------
  // Every step keeps the ownership relation
  // ------------------------------------------------------------------

  lemma AddrSame(v: Vol, w: Vol, g: Geo, j: int, pos: int)
    requires Shape(v, g) && Shape(w, g) && Inum(g, j) && 0 <= pos <= INDIRECT
    requires w.tab[j].addrs == v.tab[j].addrs
    requires DataAddr(g, v.tab[j].addrs[NDIRECT]) ==>
               w.data[v.tab[j].addrs[NDIRECT] - g.bd] == v.data[v.tab[j].addrs[NDIRECT] - g.bd]
    ensures Addr(w, g, j, pos) == Addr(v, g, j, pos)
  {
  }

  /** The block that holds the indirect addresses of `j`, if any, is owned by
      the indirect position of `j` and by nothing else. */
  lemma IndirectOwner(v: Vol, g: Geo, k: Book, j: int)
    requires Owned(v, g, k) && InUse(v, g, j)
    ensures DataAddr(g, v.tab[j].addrs[NDIRECT]) <==> j in k.ind
    ensures j in k.ind ==> var b := v.tab[j].addrs[NDIRECT] - g.bd;
                           b in k.owner && k.owner[b] == Owner(j, INDIRECT) && v.bits[b]
  {
    hide Word;
    assert PosOk(v, g, k, j, INDIRECT);
    if j in k.ind { assert BitOk(v, g, k, v.tab[j].addrs[NDIRECT] - g.bd); }
  }

  lemma StoreAddr(v: Vol, g: Geo, k: Book, b: nat, blk: Block, j: int, pos: int)
    requires Owned(v, g, k) && b in k.owner && k.owner[b].pos != INDIRECT && b < g.nbits
    requires InUse(v, g, j) && 0 <= pos <= INDIRECT
    ensures Addr(Store(v, b, blk), g, j, pos) == Addr(v, g, j, pos)
  {
    hide Word;
    IndirectOwner(v, g, k, j);
    AddrSame(v, Store(v, b, blk), g, j, pos);
  }

  lemma StoreOwned(v: Vol, g: Geo, k: Book, b: nat, blk: Block)
    requires Owned(v, g, k) && b in k.owner && k.owner[b].pos != INDIRECT && b < g.nbits
    ensures Owned(Store(v, b, blk), g, k)
  {
    hide Word, Addr;
    var w := Store(v, b, blk);
    forall j, pos | InUse(w, g, j) && 0 <= pos <= INDIRECT ensures PosOk(w, g, k, j, pos) {
      assert PosOk(v, g, k, j, pos);
      StoreAddr(v, g, k, b, blk, j, pos);
    }
    forall c | c in k.owner ensures BitOk(w, g, k, c) {
      assert BitOk(v, g, k, c);
      StoreAddr(v, g, k, b, blk, k.owner[c].inum, k.owner[c].pos);
    }
  }

  /** Overwriting the block at position `pos` of file `i` changes the bytes of
      that block and nothing else in any file. */
  lemma StoreBytes(v: Vol, g: Geo, k: Book, i: int, pos: nat, blk: Block, j: int, x: int)
    requires Owned(v, g, k) && InUse(v, g, i) && pos < k.nb[i] && Holds(v, g, k, j, x)
    ensures DataAddr(g, Addr(v, g, i, pos))
    ensures Byte(Store(v, Addr(v, g, i, pos) - g.bd, blk), g, j, x) ==
            if j == i && x / BLOCK_SIZE == pos then blk[x % BLOCK_SIZE] else Byte(v, g, j, x)
  {
    hide Word, Addr;
    assert PosOk(v, g, k, i, pos);
    var b := Addr(v, g, i, pos) - g.bd;
    assert PosOk(v, g, k, j, x / BLOCK_SIZE);
    StoreAddr(v, g, k, b, blk, j, x / BLOCK_SIZE);
  }

  // ------------------------------------------------------------------
  // Attaching a fresh block
  // ------------------------------------------------------------------

  function Attach(k: Book, b: int, i: int, pos: int): Book
    requires 0 <= i < |k.nb|
  {
    if pos == INDIRECT then k.(owner := k.owner[b := Owner(i, pos)], ind := k.ind + {i})
    else k.(owner := k.owner[b := Owner(i, pos)], nb := k.nb[i := k.nb[i] + 1])
  }

  /** `w` is `v` with the free block `b` attached at position `pos` of `i`. */
  ghost predicate Attached(v: Vol, w: Vol, g: Geo, i: int, pos: int, b: int) {
    && Shape(v, g) && Shape(w, g) && InUse(v, g, i) && 0 <= pos <= INDIRECT && 0 <= b < g.nbits
    && !v.bits[b] && w.bits == v.bits[b := true]
    && (forall j :: Inum(g, j) ==> SameButAddrs(v.tab[j], w.tab[j]))
    && (forall c :: 0 <= c < g.nbits && c != b && g.bd + c != Addr(v, g, i, INDIRECT) ==> w.data[c] == v.data[c])
    && (forall j :: InUse(v, g, j) && j != i ==> w.tab[j] == v.tab[j])
    && (forall q :: 0 <= q <= INDIRECT ==>
          Addr(w, g, i, q) == if q == pos then g.bd + b else Addr(v, g, i, q))
  }

  lemma AttachAddr(v: Vol, w: Vol, g: Geo, k: Book, i: int, pos: int, b: int, j: int, q: int)
    requires Owned(v, g, k) && Attached(v, w, g, i, pos, b) && InUse(v, g, j) && 0 <= q <= INDIRECT
    ensures Addr(w, g, j, q) == if j == i && q == pos then g.bd + b else Addr(v, g, j, q)
  {
    hide Word;
    if j != i {
      assert Addr(v, g, i, INDIRECT) == v.tab[i].addrs[NDIRECT];
      IndirectOwner(v, g, k, i);
      IndirectOwner(v, g, k, j);
      hide Owned;
      AddrSame(v, w, g, j, q);
    }
  }

  /** What may be attached next: the position the code fills is the first free
      one, and file blocks beyond the direct ones need the indirect block. */
  predicate NextFree(k: Book, i: int, pos: int)
    requires 0 <= i < |k.nb|
  {
    if pos == INDIRECT then i !in k.ind
    else pos == k.nb[i] < MAX_BLOCKS && (pos >= NDIRECT ==> i in k.ind)
  }

  lemma AttachOwned(v: Vol, w: Vol, g: Geo, k: Book, i: int, pos: int, b: int)
    requires Owned(v, g, k) && Attached(v, w, g, i, pos, b) && NextFree(k, i, pos)
    ensures Owned(w, g, Attach(k, b, i, pos))
  {
    var k' := Attach(k, b, i, pos);
    assert b in k.owner ==> BitOk(v, g, k, b);
    hide Word, Addr;
    forall j, q | InUse(w, g, j) && 0 <= q <= INDIRECT ensures PosOk(w, g, k', j, q) {
      assert SameButAddrs(v.tab[j], w.tab[j]);
      assert PosOk(v, g, k, j, q);
      AttachAddr(v, w, g, k, i, pos, b, j, q);
    }
    forall c | c in k'.owner ensures BitOk(w, g, k', c) {
      if c == b {
        AttachAddr(v, w, g, k, i, pos, b, i, pos);
        assert SameButAddrs(v.tab[i], w.tab[i]);
      } else {
        assert BitOk(v, g, k, c);
        var o := k.owner[c];
        AttachAddr(v, w, g, k, i, pos, b, o.inum, o.pos);
        assert SameButAddrs(v.tab[o.inum], w.tab[o.inum]);
      }
    }
  }

  lemma AttachSameFiles(v: Vol, w: Vol, g: Geo, k: Book, i: int, pos: int, b: int)
    requires Owned(v, g, k) && Attached(v, w, g, i, pos, b) && NextFree(k, i, pos)
    ensures SameFiles(v, w, g, k)
  {
    hide Word, Addr;
    assert PosOk(v, g, k, i, INDIRECT);
    forall j, x | Holds(v, g, k, j, x) ensures Byte(w, g, j, x) == Byte(v, g, j, x) {
      var q := x / BLOCK_SIZE;
      assert PosOk(v, g, k, j, q);
      AttachAddr(v, w, g, k, i, pos, b, j, q);
      assert BitOk(v, g, k, Addr(v, g, j, q) - g.bd);
    }
  }

  /** bmap fills a direct slot. */
  lemma DirectStep(v: Vol, g: Geo, k: Book, i: int, n: nat, b: nat)
    requires Owned(v, g, k) && InUse(v, g, i) && n < NDIRECT && b < g.nbits && !v.bits[b]
    ensures Attached(v, SetAddr(Alloc(v, b), i, n, g.bd + b), g, i, n, b)
  {
    hide Word;
    IndirectOwner(v, g, k, i);
    var w := SetAddr(Alloc(v, b), i, n, g.bd + b);
    assert forall j :: Inum(g, j) && j != i ==> w.tab[j] == v.tab[j];
  }

  /** bmap allocates the indirect block: all its entries read as 0. */
  lemma IndirectStep(v: Vol, g: Geo, k: Book, i: int, b: nat)
    requires Owned(v, g, k) && InUse(v, g, i) && i !in k.ind && b < g.nbits && !v.bits[b]
    ensures Attached(v, SetAddr(Alloc(v, b), i, NDIRECT, g.bd + b), g, i, INDIRECT, b)
  {
    hide Word;
    IndirectOwner(v, g, k, i);
    var w := SetAddr(Alloc(v, b), i, NDIRECT, g.bd + b);
    assert forall j :: Inum(g, j) && j != i ==> w.tab[j] == v.tab[j];
  }

  /** bmap records a block in the indirect block. */
  lemma DeepStep(v: Vol, g: Geo, k: Book, i: int, n: nat, b: nat)
    requires Owned(v, g, k) && InUse(v, g, i) && NDIRECT <= n < MAX_BLOCKS && i in k.ind
    requires b < g.nbits && !v.bits[b]
    ensures DataAddr(g, v.tab[i].addrs[NDIRECT])
    ensures var c := v.tab[i].addrs[NDIRECT] - g.bd;
            c != b && Attached(v, Store(Alloc(v, b), c, PutWord(v.data[c], n - NDIRECT, g.bd + b)), g, i, n, b)
  {
    hide Word, PutWord;
    IndirectOwner(v, g, k, i);
  }
}
