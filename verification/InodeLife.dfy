/** Reading a file, creating an inode, and releasing one with its blocks. */
module InodeLife {
  import opened Blocks
  import opened Volume
  import opened FileSystem

  // ------------------------------------------------------------------
  // Reading
  // ------------------------------------------------------------------

  /** One block's worth of a file, read from the block that holds it. */
  lemma ReadSlice(v: Vol, g: Geo, k: Book, i: int, o: nat, m: nat)
    requires Owned(v, g, k) && InUse(v, g, i) && v.tab[i].size <= MAX_BLOCKS * BLOCK_SIZE
    requires o + m <= v.tab[i].size && m > 0 && o % BLOCK_SIZE + m <= BLOCK_SIZE
    requires DataAddr(g, Addr(v, g, i, o / BLOCK_SIZE))
    ensures v.data[Addr(v, g, i, o / BLOCK_SIZE) - g.bd][o % BLOCK_SIZE..o % BLOCK_SIZE + m]
            == Contents(v, g, i)[o..o + m]
  {
    hide Word, Addr, Owned;
    assert Shape(v, g) by { OwnedSizes(Snap(v, k, {}), g); }
    var b := Addr(v, g, i, o / BLOCK_SIZE) - g.bd;
    var read := v.data[b][o % BLOCK_SIZE..o % BLOCK_SIZE + m];
    forall y | 0 <= y < m ensures read[y] == Contents(v, g, i)[o..o + m][y] {
      assert (o + y) / BLOCK_SIZE == o / BLOCK_SIZE && (o + y) % BLOCK_SIZE == o % BLOCK_SIZE + y;
    }
  }

  lemma BlockExists(v: Vol, g: Geo, k: Book, i: int, o: nat)
    requires Owned(v, g, k) && Settled(v, g, k) && InUse(v, g, i) && o < v.tab[i].size
    ensures o / BLOCK_SIZE < k.nb[i] <= MAX_BLOCKS && v.tab[i].size <= MAX_BLOCKS * BLOCK_SIZE
  {
  }

  datatype ReadResult = Got(bytes: seq<byte>) | Failed

  /** inode_read: bmap never allocates here, so nothing at all changes. */
  method InodeRead(fs: Fs, i: nat, off: uint32, n: uint32) returns (r: ReadResult)
    requires fs.Valid() && InUse(fs.vol, fs.g, i) && fs.vol.tab[i].typ != DEVICE
    modifies fs`vol, fs`dirty, fs`book
    ensures fs.Now() == old(fs.Now()) && fs.slots == old(fs.slots)
    ensures r == Failed <==> off > fs.vol.tab[i].size || off + n >= 0x1_0000_0000
    ensures r.Got? ==> fs.vol.tab[i].size <= MAX_BLOCKS * BLOCK_SIZE && Shape(fs.vol, fs.g) && Inum(fs.g, i)
                       && r.bytes == Contents(fs.vol, fs.g, i)[off..Min(off + n, fs.vol.tab[i].size)]
  {
    hide Owned, Settled, Contents, Mapped, Addr, Needed, Fits, Follows, Shape;
    SizeBound(fs.vol, fs.g, fs.book, i);
    OwnedSizes(fs.Now(), fs.g);
    if off > fs.vol.tab[i].size || (off + n) % 0x1_0000_0000 < off {
      return Failed;
    }
    var n' := if off + n > fs.vol.tab[i].size then fs.vol.tab[i].size - off else n;
    var dst: seq<byte> := [];
    var total, o := 0, off;
    ghost var c := Contents(fs.vol, fs.g, i);
    while total < n'
      invariant 0 <= total <= n' && o == off + total
      invariant fs.Now() == old(fs.Now()) && fs.slots == old(fs.slots)
      invariant dst == c[off..o]
    {
      var m := BLOCK_SIZE - o % BLOCK_SIZE;
      if m > n' - total {
        m := n' - total;
      }
      var part := ReadPart(fs, i, o, m);
      dst := dst + part;
      assert c[off..o] + c[o..o + m] == c[off..o + m];
      total, o := total + m, o + m;
    }
    r := Got(dst);
  }

  /** One turn of the copy loop of inode_read. */
  method ReadPart(fs: Fs, i: nat, o: nat, m: nat) returns (part: seq<byte>)
    requires fs.Valid() && InUse(fs.vol, fs.g, i) && m > 0 && o % BLOCK_SIZE + m <= BLOCK_SIZE
    requires Shape(fs.vol, fs.g) && o + m <= fs.vol.tab[i].size <= MAX_BLOCKS * BLOCK_SIZE
    modifies fs`vol, fs`dirty, fs`book
    ensures fs.Now() == old(fs.Now()) && part == Contents(fs.vol, fs.g, i)[o..o + m]
  {
    hide Owned, Settled, Contents, Mapped, Addr, Needed, Fits, Follows;
    BlockExists(fs.vol, fs.g, fs.book, i, o);
    var addr, bm := fs.Bmap(i, o / BLOCK_SIZE);
    MappedAddr(old(fs.Now()), fs.Now(), fs.g, i, o / BLOCK_SIZE, addr, bm);
    ReadSlice(fs.vol, fs.g, fs.book, i, o, m);
    part := fs.vol.data[addr - fs.g.bd][o % BLOCK_SIZE..o % BLOCK_SIZE + m];
  }

  function Min(a: nat, b: nat): nat { if a < b then a else b }

  // ------------------------------------------------------------------
  // Releasing
  // ------------------------------------------------------------------

  /** Which positions of inode `i` have had their block freed. */
  predicate Gone(k: Book, b: int, i: int, upto: int) {
    b in k.owner && k.owner[b].inum == i && k.owner[b].pos < upto
  }

  ghost predicate Cleared(v: Vol, bits: seq<bool>, k: Book, i: int, upto: int) {
    && |bits| == |v.bits|
    && forall b :: 0 <= b < |bits| ==> (bits[b] <==> v.bits[b] && !Gone(k, b, i, upto))
  }

  /** Positions below `upto` that were in use. */
  function UsedBelow(k: Book, i: int, upto: int): nat
    requires 0 <= i < |k.nb|
  {
    if upto <= 0 then 0
    else if upto <= MAX_BLOCKS then Min(upto, k.nb[i])
    else Min(MAX_BLOCKS, k.nb[i]) + if i in k.ind then 1 else 0
  }

  /** One step of the freeing loops: the address recorded at `pos` is 0 exactly
      if the position is unused; otherwise its bit is still set, and clearing
      it frees exactly this position. */
  lemma FreeStep(v: Vol, g: Geo, k: Book, bits: seq<bool>, i: int, pos: int)
    requires Owned(v, g, k) && InUse(v, g, i) && 0 <= pos <= INDIRECT && Cleared(v, bits, k, i, pos)
    ensures var a := Addr(v, g, i, pos);
            && (a == 0 ==> Cleared(v, bits, k, i, pos + 1) && UsedBelow(k, i, pos + 1) == UsedBelow(k, i, pos))
            && (a != 0 ==> DataAddr(g, a) && bits[a - g.bd]
                           && Cleared(v, bits[a - g.bd := false], k, i, pos + 1)
                           && UsedBelow(k, i, pos + 1) == UsedBelow(k, i, pos) + 1
                           && FreeBits(bits[a - g.bd := false]) == FreeBits(bits) + 1)
  {
    hide Word, Addr, FreeBits;
    var a := Addr(v, g, i, pos);
    assert PosOk(v, g, k, i, pos);
    forall b | 0 <= b < |bits| && b in k.owner && k.owner[b].inum == i && k.owner[b].pos == pos
      ensures a == g.bd + b
    {
      assert BitOk(v, g, k, b);
    }
    if a != 0 {
      assert BitOk(v, g, k, a - g.bd);
      FreeBitsClear(bits, a - g.bd);
    }
  }

  /** The book without inode `i`. */
  function Forget(k: Book, i: int): Book
    requires 0 <= i < |k.nb|
  {
    Book(map b | b in k.owner && k.owner[b].inum != i :: k.owner[b], k.nb[i := 0], k.ind - {i})
  }

  /** `w` is `v` with inode `i` gone and its bits cleared; its indirect block
      may hold anything. */
  ghost predicate ReleasedTo(v: Vol, w: Vol, g: Geo, k: Book, i: int) {
    && Shape(v, g) && Shape(w, g) && InUse(v, g, i)
    && Cleared(v, w.bits, k, i, INDIRECT + 1)
    && w.tab == v.tab[i := w.tab[i]] && w.tab[i].typ == NONE
    && forall b :: 0 <= b < g.nbits && g.bd + b != v.tab[i].addrs[NDIRECT] ==> w.data[b] == v.data[b]
  }

  lemma ReleaseAddr(v: Vol, w: Vol, g: Geo, k: Book, i: int, j: int, pos: int)
    requires Owned(v, g, k) && ReleasedTo(v, w, g, k, i) && InUse(v, g, j) && j != i && 0 <= pos <= INDIRECT
    ensures Addr(w, g, j, pos) == Addr(v, g, j, pos)
  {
    hide Word;
    IndirectOwner(v, g, k, i);
    IndirectOwner(v, g, k, j);
    AddrSame(v, w, g, j, pos);
  }

  lemma ReleaseOwned(v: Vol, w: Vol, g: Geo, k: Book, i: int)
    requires Owned(v, g, k) && ReleasedTo(v, w, g, k, i)
    ensures Owned(w, g, Forget(k, i))
  {
    hide Word, Addr;
    var l := Forget(k, i);
    forall j, pos | InUse(w, g, j) && 0 <= pos <= INDIRECT ensures PosOk(w, g, l, j, pos) {
      assert j != i && PosOk(v, g, k, j, pos);
      ReleaseAddr(v, w, g, k, i, j, pos);
    }
    forall b | b in l.owner ensures BitOk(w, g, l, b) {
      assert BitOk(v, g, k, b);
      ReleaseAddr(v, w, g, k, i, k.owner[b].inum, k.owner[b].pos);
    }
    forall b | 0 <= b < g.nbits && w.bits[b] ensures b in l.owner {
      assert b in k.owner && BitOk(v, g, k, b) && !Gone(k, b, i, INDIRECT + 1);
    }
  }

  lemma ReleaseOthers(v: Vol, w: Vol, g: Geo, k: Book, i: int)
    requires Owned(v, g, k) && Settled(v, g, k) && ReleasedTo(v, w, g, k, i)
    ensures Settled(w, g, Forget(k, i)) && OthersKept(v, w, g, i)
  {
    hide Word, Addr;
    IndirectOwner(v, g, k, i);
    forall j | InUse(v, g, j) && j != i && v.tab[j].size <= MAX_BLOCKS * BLOCK_SIZE
      ensures Contents(w, g, j) == Contents(v, g, j)
    {
      forall x | 0 <= x < v.tab[j].size ensures Byte(w, g, j, x) == Byte(v, g, j, x) {
        var pos := x / BLOCK_SIZE;
        assert PosOk(v, g, k, j, pos);
        ReleaseAddr(v, w, g, k, i, j, pos);
      }
    }
  }

  /** Without an indirect block only direct positions can be owned. */
  lemma NoDeepBlocks(v: Vol, g: Geo, k: Book, bits: seq<bool>, i: int)
    requires Owned(v, g, k) && InUse(v, g, i) && i !in k.ind && Cleared(v, bits, k, i, NDIRECT)
    ensures Cleared(v, bits, k, i, INDIRECT + 1)
    ensures UsedBelow(k, i, INDIRECT + 1) == UsedBelow(k, i, NDIRECT)
  {
    hide Word, Addr;
    forall b | 0 <= b < |bits| && Gone(k, b, i, INDIRECT + 1) ensures Gone(k, b, i, NDIRECT) {
      assert BitOk(v, g, k, b);
    }
  }

  lemma NothingGone(v: Vol, g: Geo, k: Book, i: int)
    requires Owned(v, g, k)
    ensures Cleared(v, v.bits, k, i, 0)
  {
    hide Word, Addr;
    forall b | b in k.owner ensures k.owner[b].pos >= 0 { assert BitOk(v, g, k, b); }
  }

  /** The bitmap blocks of the blocks recorded at the positions below `upto`. */
  ghost function BitmapsOf(v: Vol, g: Geo, i: int, upto: int): set<nat>
    requires Shape(v, g) && Inum(g, i) && upto <= INDIRECT + 1
  {
    set pos | 0 <= pos < upto && Addr(v, g, i, pos) != 0 :: BmOf(g, Addr(v, g, i, pos))
  }

  /** The blocks that releasing an inode logs. */
  ghost function ReleaseSet(v: Vol, g: Geo, i: nat): set<nat>
    requires Shape(v, g) && Inum(g, i)
  {
    BitmapsOf(v, g, i, INDIRECT + 1) + IndSet(v.tab[i]) + {InodeBlockNo(g, i)}
  }

  lemma BitmapsNext(v: Vol, g: Geo, i: int, pos: nat)
    requires Shape(v, g) && Inum(g, i) && pos <= INDIRECT
    ensures var a := Addr(v, g, i, pos);
            BitmapsOf(v, g, i, pos + 1) == BitmapsOf(v, g, i, pos) + if a == 0 then {} else {BmOf(g, a)}
  {
    hide Addr, BmOf;
  }

  lemma BitmapsGrow(v: Vol, g: Geo, i: int, lo: int, hi: int)
    requires Shape(v, g) && Inum(g, i) && lo <= hi <= INDIRECT + 1
    ensures BitmapsOf(v, g, i, lo) <= BitmapsOf(v, g, i, hi)
  {
    hide Addr, BmOf;
  }

  lemma NoBitmaps(v: Vol, g: Geo, i: int)
    requires Shape(v, g) && Inum(g, i)
    ensures BitmapsOf(v, g, i, 0) == {}
  {
  }

  /** Without an indirect block nothing is recorded behind the direct positions. */
  lemma NoDeepBitmaps(v: Vol, g: Geo, i: int)
    requires Shape(v, g) && Inum(g, i) && v.tab[i].addrs[NDIRECT] == 0
    ensures BitmapsOf(v, g, i, INDIRECT + 1) == BitmapsOf(v, g, i, NDIRECT)
  {
    hide Word;
    assert forall pos :: NDIRECT <= pos <= INDIRECT ==> Addr(v, g, i, pos) == 0;
    hide Addr, BmOf;
  }

  /** The first loop of itruncate. */
  method FreeDirect(fs: Fs, i: nat)
    requires Owned(fs.vol, fs.g, fs.book) && InUse(fs.vol, fs.g, i)
    modifies fs`vol, fs`dirty
    ensures Cleared(old(fs.vol), fs.vol.bits, fs.book, i, NDIRECT)
    ensures FreeBits(fs.vol.bits) == FreeBits(old(fs.vol).bits) + UsedBelow(fs.book, i, NDIRECT)
    ensures fs.vol.data == old(fs.vol).data && Touched(i, old(fs.vol).tab, fs.vol.tab)
    ensures fs.vol.tab[i].addrs[NDIRECT] == old(fs.vol).tab[i].addrs[NDIRECT]
    ensures Shape(old(fs.vol), fs.g) && Shape(fs.vol, fs.g) && fs.dirty == old(fs.dirty) + BitmapsOf(old(fs.vol), fs.g, i, NDIRECT)
    ensures Follows(fs.g, old(fs.Disk()), fs.Disk())
  {
    hide Word, FreeBits, Owned, Follows, BitmapsOf;
    ghost var v, k, g := fs.vol, fs.book, fs.g;
    ghost var d0 := fs.Disk();
    FollowsRefl(g, d0);
    OwnedSizes(fs.Now(), g);
    NothingGone(v, g, k, i);
    NoBitmaps(v, g, i);
    for n := 0 to NDIRECT
      invariant Shape(fs.vol, g) && Cleared(v, fs.vol.bits, k, i, n) && fs.vol.data == v.data
      invariant FreeBits(fs.vol.bits) == FreeBits(v.bits) + UsedBelow(k, i, n)
      invariant Touched(i, v.tab, fs.vol.tab)
      invariant forall q :: n <= q <= NDIRECT ==> fs.vol.tab[i].addrs[q] == v.tab[i].addrs[q]
      invariant Follows(g, d0, fs.Disk()) && fs.dirty == d0.dirty + BitmapsOf(v, g, i, n)
    {
      FreeStep(v, g, k, fs.vol.bits, i, n);
      BitmapsNext(v, g, i, n);
      if fs.vol.tab[i].addrs[n] != 0 {
        ghost var d1 := fs.Disk();
        fs.Bfree(fs.vol.tab[i].addrs[n]);
        FollowsTrans(g, d0, d1, fs.Disk());
        fs.vol := fs.vol.(tab := fs.vol.tab[i := fs.vol.tab[i].(addrs := fs.vol.tab[i].addrs[n := 0])]);
      }
    }
  }

  /** The state of that loop before entry `j`: the bits of the earlier entries are clear,
      the later entries are as they were, and no other block has changed. */
  ghost predicate Emptying(v: Vol, u: Vol, g: Geo, k: Book, i: int, c: int, j: int) {
    && Shape(v, g) && Shape(u, g) && 0 <= c < g.nbits && 0 <= j <= WORDS_PER_BLOCK
    && Cleared(v, u.bits, k, i, NDIRECT + j)
    && (forall b :: 0 <= b < |v.data| && b != c ==> u.data[b] == v.data[b])
    && (forall q :: j <= q < WORDS_PER_BLOCK ==> Word(u.data[c], q) == Word(v.data[c], q))
  }

  lemma EmptyingStarts(v: Vol, u: Vol, g: Geo, k: Book, i: int, c: int)
    requires Shape(v, g) && Shape(u, g) && u.data == v.data && 0 <= c < g.nbits && Cleared(v, u.bits, k, i, NDIRECT)
    ensures Emptying(v, u, g, k, i, c, 0)
  {
  }

  lemma EmptyingEnds(v: Vol, u: Vol, g: Geo, k: Book, i: int, c: int)
    requires Emptying(v, u, g, k, i, c, WORDS_PER_BLOCK)
    ensures Shape(u, g) && Cleared(v, u.bits, k, i, INDIRECT) && forall b :: 0 <= b < |v.data| && b != c ==> u.data[b] == v.data[b]
  {
  }

  /** One entry of the indirect block `c`. */
  method FreeEntry(fs: Fs, i: nat, j: nat, c: nat, ghost v: Vol)
    requires Owned(v, fs.g, fs.book) && InUse(v, fs.g, i) && j < WORDS_PER_BLOCK
    requires Emptying(v, fs.vol, fs.g, fs.book, i, c, j) && v.tab[i].addrs[NDIRECT] == fs.g.bd + c
    requires BitmapsOf(v, fs.g, i, NDIRECT + j) <= fs.dirty
    modifies fs`vol, fs`dirty
    ensures Emptying(v, fs.vol, fs.g, fs.book, i, c, j + 1) && fs.vol.tab == old(fs.vol).tab
    ensures FreeBits(fs.vol.bits) == FreeBits(old(fs.vol).bits)
              + UsedBelow(fs.book, i, NDIRECT + j + 1) - UsedBelow(fs.book, i, NDIRECT + j)
    ensures fs.dirty == old(fs.dirty) + BitmapsOf(v, fs.g, i, NDIRECT + j + 1)
    ensures BitsLogged(fs.g, old(fs.vol).bits, fs.vol.bits, fs.dirty)
    ensures forall x :: x in fs.dirty ==> x in old(fs.dirty) || HomeBlock(fs.g, x)
  {
    hide Word, PutWord, FreeBits, Owned, BitmapsOf, Cleared, UsedBelow, BmOf;
    FreeStep(v, fs.g, fs.book, fs.vol.bits, i, NDIRECT + j);
    BitmapsNext(v, fs.g, i, NDIRECT + j);
    var a := Word(fs.vol.data[c], j);
    if a != 0 {
      fs.Bfree(a);
      fs.vol := fs.vol.(data := fs.vol.data[c := PutWord(fs.vol.data[c], j, 0)]);
    }
  }

  /** The second loop of itruncate, over the entries of the indirect block. */
  method FreeEntries(fs: Fs, i: nat, ghost v: Vol)
    requires Owned(v, fs.g, fs.book) && InUse(v, fs.g, i) && i in fs.book.ind
    requires Shape(fs.vol, fs.g) && fs.vol.data == v.data && Touched(i, v.tab, fs.vol.tab)
    requires Cleared(v, fs.vol.bits, fs.book, i, NDIRECT) && Shape(v, fs.g) && BitmapsOf(v, fs.g, i, NDIRECT) <= fs.dirty
    modifies fs`vol, fs`dirty
    ensures Cleared(v, fs.vol.bits, fs.book, i, INDIRECT) && Shape(fs.vol, fs.g)
    ensures FreeBits(fs.vol.bits) == FreeBits(old(fs.vol).bits)
              + UsedBelow(fs.book, i, INDIRECT) - UsedBelow(fs.book, i, NDIRECT)
    ensures fs.vol.tab == old(fs.vol).tab
    ensures forall b :: 0 <= b < |v.data| && fs.g.bd + b != v.tab[i].addrs[NDIRECT] ==> fs.vol.data[b] == v.data[b]
    ensures fs.dirty == old(fs.dirty) + BitmapsOf(v, fs.g, i, INDIRECT) + IndSet(v.tab[i])
    ensures Follows(fs.g, old(fs.Disk()), fs.Disk())
  {
    hide Word, FreeBits, Owned, BitsLogged, BitmapsOf, Cleared, UsedBelow, BmOf, Emptying;
    ghost var k, g, w := fs.book, fs.g, fs.vol;
    ghost var d0 := fs.Disk();
    FollowsRefl(g, d0);
    IndirectOwner(v, g, k, i);
    OwnedSizes(Snap(v, k, {}), g);
    var c := fs.vol.tab[i].addrs[NDIRECT] - fs.g.bd;
    EmptyingStarts(v, fs.vol, g, k, i, c);
    for j := 0 to WORDS_PER_BLOCK
      invariant fs.vol.tab == w.tab && Emptying(v, fs.vol, g, k, i, c, j)
      invariant FreeBits(fs.vol.bits) == FreeBits(w.bits) + UsedBelow(k, i, NDIRECT + j) - UsedBelow(k, i, NDIRECT)
      invariant BitsLogged(g, d0.bits, fs.vol.bits, fs.dirty)
      invariant d0.dirty + BitmapsOf(v, g, i, NDIRECT + j) == fs.dirty
      invariant forall x :: x in fs.dirty ==> x in d0.dirty || HomeBlock(g, x)
    {
      ghost var d1 := fs.Disk();
      FreeEntry(fs, i, j, c, v);
      BitmapsGrow(v, g, i, NDIRECT + j, NDIRECT + j + 1);
      BitsLoggedTrans(g, d0.bits, d1.bits, fs.vol.bits, d1.dirty, fs.dirty);
    }
    EmptyingEnds(v, fs.vol, g, k, i, c);
    ghost var d2 := fs.dirty;
    fs.dirty := fs.dirty + {fs.vol.tab[i].addrs[NDIRECT]};
    BitsLoggedTrans(g, d0.bits, fs.vol.bits, fs.vol.bits, d2, fs.dirty);
  }

  lemma BitsLoggedTrans(g: Geo, a: seq<bool>, b: seq<bool>, c: seq<bool>, d: set<nat>, e: set<nat>)
    requires BitsLogged(g, a, b, d) && d <= e && (b == c || BitsLogged(g, b, c, e))
    ensures BitsLogged(g, a, c, e)
  {
  }

  /** The entries of the indirect block and then the block itself. */
  method FreeIndirect(fs: Fs, i: nat, ghost v: Vol)
    requires Owned(v, fs.g, fs.book) && InUse(v, fs.g, i) && i in fs.book.ind
    requires Shape(fs.vol, fs.g) && fs.vol.data == v.data && Touched(i, v.tab, fs.vol.tab)
    requires Cleared(v, fs.vol.bits, fs.book, i, NDIRECT) && Shape(v, fs.g) && BitmapsOf(v, fs.g, i, NDIRECT) <= fs.dirty
    requires DataAddr(fs.g, v.tab[i].addrs[NDIRECT])
    modifies fs`vol, fs`dirty
    ensures Cleared(v, fs.vol.bits, fs.book, i, INDIRECT + 1) && Shape(fs.vol, fs.g)
    ensures FreeBits(fs.vol.bits) == FreeBits(old(fs.vol).bits)
              + UsedBelow(fs.book, i, INDIRECT + 1) - UsedBelow(fs.book, i, NDIRECT)
    ensures fs.vol.tab == old(fs.vol).tab
    ensures forall b :: 0 <= b < |v.data| && fs.g.bd + b != v.tab[i].addrs[NDIRECT] ==> fs.vol.data[b] == v.data[b]
    ensures fs.dirty == old(fs.dirty) + BitmapsOf(v, fs.g, i, INDIRECT + 1) + IndSet(v.tab[i])
    ensures Follows(fs.g, old(fs.Disk()), fs.Disk())
  {
    hide Word, FreeBits, Owned, UsedBelow, Follows, BitmapsOf, BmOf, Cleared;
    ghost var (g, d0) := (fs.g, fs.Disk());
    FreeEntries(fs, i, v);
    FreeStep(v, g, fs.book, fs.vol.bits, i, INDIRECT);
    BitmapsNext(v, g, i, INDIRECT);
    ghost var d1 := fs.Disk();
    fs.Bfree(fs.vol.tab[i].addrs[NDIRECT]);
    FollowsTrans(g, d0, d1, fs.Disk());
  }

  /** itruncate; the address of the freed indirect block is left behind. */
  method Itruncate(fs: Fs, i: nat)
    requires Owned(fs.vol, fs.g, fs.book) && InUse(fs.vol, fs.g, i) && |fs.slots| == fs.g.ninodes
    modifies fs`vol, fs`dirty, fs`slots
    ensures Shape(fs.vol, fs.g) && Cleared(old(fs.vol), fs.vol.bits, fs.book, i, INDIRECT + 1)
    ensures FreeBits(fs.vol.bits) == FreeBits(old(fs.vol).bits) + UsedBelow(fs.book, i, INDIRECT + 1)
    ensures |fs.vol.tab| == |old(fs.vol).tab| && fs.vol.tab == old(fs.vol).tab[i := fs.vol.tab[i]]
    ensures fs.vol.tab[i] == old(fs.vol).tab[i].(size := 0, addrs := fs.vol.tab[i].addrs)
    ensures fs.slots == old(fs.slots)[i := fs.vol.tab[i]]
    ensures forall b :: 0 <= b < fs.g.nbits && fs.g.bd + b != old(fs.vol).tab[i].addrs[NDIRECT] ==>
              fs.vol.data[b] == old(fs.vol).data[b]
    ensures Shape(old(fs.vol), fs.g) && fs.dirty == old(fs.dirty) + ReleaseSet(old(fs.vol), fs.g, i)
    ensures Follows(fs.g, old(fs.Disk()), fs.Disk())
  {
    hide Word, PutWord, FreeBits, Owned, UsedBelow, Follows, BitmapsOf, BmOf, Cleared;
    ghost var v, k, g := fs.vol, fs.book, fs.g;
    ghost var d0 := fs.Disk();
    OwnedSizes(fs.Now(), g);
    FreeDirect(fs, i);
    ghost var d1 := fs.Disk();
    IndirectOwner(v, g, k, i);
    BitmapsGrow(v, g, i, NDIRECT, INDIRECT + 1);
    if fs.vol.tab[i].addrs[NDIRECT] != 0 {
      assert i in k.ind by { if i !in k.ind { NoIndirect(v, g, k, i); } }
      FreeIndirect(fs, i, v);
      FollowsTrans(g, d0, d1, fs.Disk());
    } else {
      assert i !in k.ind;
      NoDeepBlocks(v, g, k, fs.vol.bits, i);
      NoDeepBitmaps(v, g, i);
    }
    fs.vol := fs.vol.(tab := fs.vol.tab[i := fs.vol.tab[i].(size := 0)]);
    ghost var d3 := fs.Disk();
    fs.InodeUpdate(i);
    FollowsTrans(g, d0, d3, fs.Disk());
  }

  /** inode_put drops the last reference to a loaded inode without links. */
  predicate Last(d: Dinode, valid: bool, ref: nat) {
    valid && d.nlink == 0 && ref == 1
  }

  /** inode_put: the last reference to an unlinked inode returns exactly its
      blocks to the free count and logs exactly the blocks of `ReleaseSet`; otherwise
      only the reference goes away.  `valid` says whether the in-memory copy has been
      loaded; the inode's own fields need not have been logged yet. */
  method InodePut(fs: Fs, i: nat, valid: bool)
    requires Owned(fs.vol, fs.g, fs.book) && Settled(fs.vol, fs.g, fs.book)
    requires InUse(fs.vol, fs.g, i) && |fs.slots| == |fs.vol.tab| && fs.slots[i := fs.vol.tab[i]] == fs.vol.tab
    requires |fs.ref| == fs.g.ninodes && fs.ref[i] >= 1
    modifies fs
    ensures fs.ref == old(fs.ref)[i := old(fs.ref)[i] - 1]
    ensures old(fs.Valid()) || Last(old(fs.vol).tab[i], valid, old(fs.ref)[i]) ==> fs.Valid()
    ensures var d := old(fs.vol).tab[i];
            if Last(d, valid, old(fs.ref)[i])
            then Inum(fs.g, i) && !InUse(fs.vol, fs.g, i) && OthersKept(old(fs.vol), fs.vol, fs.g, i)
                 && fs.vol.tab[i] == d.(typ := NONE, size := 0, addrs := fs.vol.tab[i].addrs)
                 && FreeBits(fs.vol.bits) == FreeBits(old(fs.vol).bits) + Needed(d.size)
                                             + (if Needed(d.size) > NDIRECT then 1 else 0)
                 && fs.dirty == old(fs.dirty) + ReleaseSet(old(fs.vol), fs.g, i)
            else fs.Now() == old(fs.Now()) && fs.slots == old(fs.slots)
    ensures Follows(fs.g, old(fs.Disk()), fs.Disk())
  {
    hide Word, FreeBits, Owned, Settled, Needed, Follows, BitmapsOf;
    ghost var v, k, g := fs.vol, fs.book, fs.g;
    ghost var d0 := fs.Disk();
    FollowsRefl(g, d0);
    OwnedSizes(fs.Now(), g);
    if valid && fs.vol.tab[i].nlink == 0 {
      if fs.ref[i] == 1 {
        Itruncate(fs, i);
        fs.vol := fs.vol.(tab := fs.vol.tab[i := fs.vol.tab[i].(typ := NONE)]);
        ghost var d1 := fs.Disk();
        fs.InodeUpdate(i);
        FollowsTrans(g, d0, d1, fs.Disk());
        ReleaseOwned(v, fs.vol, g, k, i);
        ReleaseOthers(v, fs.vol, g, k, i);
        SettledCount(v, g, k, i);
        fs.book := Forget(k, i);
        assert fs.slots == fs.vol.tab;
      }
    }
    fs.ref := fs.ref[i := fs.ref[i] - 1];
  }

  lemma SettledCount(v: Vol, g: Geo, k: Book, i: int)
    requires Owned(v, g, k) && Settled(v, g, k) && InUse(v, g, i)
    ensures UsedBelow(k, i, INDIRECT + 1) == Needed(v.tab[i].size) + if Needed(v.tab[i].size) > NDIRECT then 1 else 0
  {
    hide Needed;
  }

  // ------------------------------------------------------------------
  // Creating
  // ------------------------------------------------------------------

  function FreshInode(typ: InodeType): Dinode {
    Dinode(typ, 0, 0, 0, 0, seq(NDIRECT + 1, n => 0))
  }

  lemma FreshAddr(v: Vol, g: Geo, i: int, typ: InodeType, pos: int)
    requires Shape(v, g) && Inum(g, i) && v.tab[i] == FreshInode(typ) && 0 <= pos <= INDIRECT
    ensures Addr(v, g, i, pos) == 0
  {
  }

  /** Using a slot that was free cannot disturb any owner. */
  lemma FreshOwned(v: Vol, g: Geo, k: Book, i: nat, typ: InodeType)
    requires Owned(v, g, k) && Settled(v, g, k) && Inum(g, i) && v.tab[i].typ == NONE
    ensures var w := v.(tab := v.tab[i := FreshInode(typ)]);
            var l := k.(nb := k.nb[i := 0], ind := k.ind - {i});
            && Owned(w, g, l) && Settled(w, g, l) && OthersKept(v, w, g, i)
  {
    hide Word;
    var w := v.(tab := v.tab[i := FreshInode(typ)]);
    var l := k.(nb := k.nb[i := 0], ind := k.ind - {i});
    forall j, pos | Inum(g, j) && j != i && 0 <= pos <= INDIRECT ensures Addr(w, g, j, pos) == Addr(v, g, j, pos) {
      AddrSame(v, w, g, j, pos);
    }
    forall pos | 0 <= pos <= INDIRECT ensures Addr(w, g, i, pos) == 0 { FreshAddr(w, g, i, typ, pos); }
    hide Addr;
    forall j, pos | InUse(w, g, j) && 0 <= pos <= INDIRECT ensures PosOk(w, g, l, j, pos) {
      if j != i { assert PosOk(v, g, k, j, pos); }
    }
    forall b | b in l.owner ensures BitOk(w, g, l, b) { assert BitOk(v, g, k, b); }
    forall j | InUse(v, g, j) && j != i && v.tab[j].size <= MAX_BLOCKS * BLOCK_SIZE
      ensures Contents(w, g, j) == Contents(v, g, j)
    {
      forall x | 0 <= x < v.tab[j].size ensures Byte(w, g, j, x) == Byte(v, g, j, x) {
      }
    }
  }

  /** inode_alloc: the lowest free inode, wiped, so that a stale indirect
      address of its last life cannot be mistaken for a block.  0 is the panic. */
  method InodeAlloc(fs: Fs, typ: InodeType) returns (i: nat)
    requires fs.Valid() && typ != NONE && fs.g.ninodes > 0
    modifies fs`vol, fs`slots, fs`dirty, fs`book
    ensures fs.Valid()
    ensures i == 0 ==> fs.Now() == old(fs.Now()) && forall j :: 1 <= j < fs.g.ninodes ==> InUse(fs.vol, fs.g, j)
    ensures i != 0 ==> Inum(fs.g, i) && old(fs.vol).tab[i].typ == NONE
                       && fs.vol.tab[i] == FreshInode(typ) && OthersKept(old(fs.vol), fs.vol, fs.g, i)
                       && fs.vol.bits == old(fs.vol).bits
    ensures i != 0 ==> forall j :: 1 <= j < i ==> InUse(old(fs.vol), fs.g, j)
    ensures i != 0 ==> fs.dirty == old(fs.dirty) + {InodeBlockNo(fs.g, i)}
    ensures Follows(fs.g, old(fs.Disk()), fs.Disk())
  {
    hide Word, Owned, Settled;
    OwnedSizes(fs.Now(), fs.g);
    var inum := 1;
    while inum < fs.g.ninodes
      invariant 1 <= inum && fs.Now() == old(fs.Now()) && fs.slots == old(fs.slots)
      invariant forall j :: 1 <= j < inum && j < fs.g.ninodes ==> InUse(fs.vol, fs.g, j)
    {
      if fs.slots[inum].typ == NONE {
        FreshOwned(fs.vol, fs.g, fs.book, inum, typ);
        fs.slots := fs.slots[inum := FreshInode(typ)];
        fs.dirty := fs.dirty + {InodeBlockNo(fs.g, inum)};
        fs.vol := fs.vol.(tab := fs.vol.tab[inum := FreshInode(typ)]);
        fs.book := fs.book.(nb := fs.book.nb[inum := 0], ind := fs.book.ind - {inum});
        return inum;
      }
      inum := inum + 1;
    }
    return 0;
  }
}
