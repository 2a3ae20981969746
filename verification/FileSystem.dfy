/** The block allocator and the inode layer as code that updates the volume in
    place: fs/balloc.c and fs/inode.c. */
module FileSystem {
  import opened Blocks
  import opened Common
  import opened Volume

  lemma SameFilesTrans(u: Vol, v: Vol, w: Vol, g: Geo, k: Book, l: Book)
    requires SameFiles(u, v, g, k) && SameFiles(v, w, g, l)
    requires forall j :: Inum(g, j) ==> k.nb[j] <= l.nb[j]
    ensures SameFiles(u, w, g, k)
  {
    hide Byte;
    forall j | Inum(g, j) ensures SameButAddrs(u.tab[j], w.tab[j]) {
      assert SameButAddrs(u.tab[j], v.tab[j]) && SameButAddrs(v.tab[j], w.tab[j]);
    }
    forall j, x | Holds(u, g, k, j, x) ensures Byte(w, g, j, x) == Byte(u, g, j, x) {
      assert SameButAddrs(u.tab[j], v.tab[j]);
      assert Holds(v, g, l, j, x);
    }
  }

  lemma SameFilesRefl(v: Vol, g: Geo, k: Book)
    requires Shape(v, g) && |k.nb| == g.ninodes
    ensures SameFiles(v, v, g, k)
  {
  }

  lemma AllocFacts(v: Vol, g: Geo, b: nat)
    requires Shape(v, g) && b < |v.bits|
    ensures Shape(Alloc(v, b), g) && Alloc(v, b).tab == v.tab
  {
  }

  lemma ShapeFacts(v: Vol, g: Geo)
    requires Shape(v, g)
    ensures |v.bits| == |v.data| == g.nbits && 0 < g.bd
  {
  }

  lemma AllocBits(v: Vol, b: nat)
    requires b < |v.bits| == |v.data|
    ensures Alloc(v, b).bits == v.bits[b := true]
  {
  }

  lemma NoIndirect(v: Vol, g: Geo, k: Book, i: int)
    requires Owned(v, g, k) && InUse(v, g, i) && i !in k.ind
    ensures v.tab[i].addrs[NDIRECT] == 0
  {
    assert PosOk(v, g, k, i, INDIRECT);
  }

  function Recorded(v: Vol, g: Geo, i: nat, pos: nat, a: uint32): Vol
    requires Shape(v, g) && i < |v.tab| && pos <= INDIRECT
    requires NDIRECT <= pos < INDIRECT ==> DataAddr(g, v.tab[i].addrs[NDIRECT])
  {
    if pos < NDIRECT then SetAddr(v, i, pos, a)
    else if pos == INDIRECT then SetAddr(v, i, NDIRECT, a)
    else
      var c := v.tab[i].addrs[NDIRECT] - g.bd;
      Store(v, c, PutWord(v.data[c], pos - NDIRECT, a))
  }

  lemma RecordedBits(v: Vol, g: Geo, i: nat, pos: nat, a: uint32)
    requires Shape(v, g) && i < |v.tab| && pos <= INDIRECT
    requires NDIRECT <= pos < INDIRECT ==> DataAddr(g, v.tab[i].addrs[NDIRECT])
    ensures Recorded(v, g, i, pos, a).bits == v.bits
  {
  }

  /** Allocating a block and recording it attaches it. */
  lemma RecordAttaches(v: Vol, g: Geo, k: Book, i: nat, pos: nat, b: nat)
    requires Owned(v, g, k) && InUse(v, g, i) && pos <= INDIRECT && NextFree(k, i, pos)
    requires b < g.nbits && !v.bits[b] && Shape(Alloc(v, b), g)
    requires NDIRECT <= pos < INDIRECT ==> DataAddr(g, v.tab[i].addrs[NDIRECT])
    ensures var w := Recorded(Alloc(v, b), g, i, pos, g.bd + b);
            Attached(v, w, g, i, pos, b) && Shape(w, g) && Addr(w, g, i, pos) == g.bd + b
  {
    hide Word, PutWord, Addr, Owned;
    if pos < NDIRECT {
      DirectStep(v, g, k, i, pos, b);
    } else if pos == INDIRECT {
      IndirectStep(v, g, k, i, b);
    } else {
      DeepStep(v, g, k, i, pos, b);
    }
  }

  /** The disk address of the indirect block, if there is one. */
  ghost function IndSet(d: Dinode): (r: set<nat>)
    requires |d.addrs| == NDIRECT + 1
    ensures |r| <= 1
  {
    if d.addrs[NDIRECT] == 0 then {} else {d.addrs[NDIRECT]}
  }

  /** Only addresses of inode `i` have changed, and its indirect block has not
      been replaced by another one. */
  predicate Touched(i: nat, before: seq<Dinode>, after: seq<Dinode>) {
    && |after| == |before| && i < |after|
    && |after[i].addrs| == |before[i].addrs| == NDIRECT + 1
    && SameButAddrs(before[i], after[i])
    && (forall j :: 0 <= j < |after| && j != i ==> after[j] == before[j])
    && (before[i].addrs[NDIRECT] != 0 ==> after[i].addrs[NDIRECT] == before[i].addrs[NDIRECT])
  }

  /** memcpy of `bytes` into a block at offset `at`. */
  function Patch(blk: Block, at: nat, bytes: seq<byte>): (r: Block)
    requires at + |bytes| <= BLOCK_SIZE
    ensures forall y :: 0 <= y < BLOCK_SIZE ==>
              r[y] == if at <= y < at + |bytes| then bytes[y - at] else blk[y]
  {
    blk[..at] + bytes + blk[at + |bytes|..]
  }

  /** The bytes of inode `i` from `lo` on have become `bytes`; every other byte
      that was in a file is as before. */
  ghost predicate Wrote(v: Vol, w: Vol, g: Geo, k: Book, i: int, lo: nat, bytes: seq<byte>) {
    && Shape(v, g) && Shape(w, g) && |k.nb| == g.ninodes && Inum(g, i)
    && lo + |bytes| <= MAX_BLOCKS * BLOCK_SIZE
    && (forall j, x :: Holds(v, g, k, j, x) && !(j == i && lo <= x < lo + |bytes|) ==>
          Byte(w, g, j, x) == Byte(v, g, j, x))
    && (forall x :: lo <= x < lo + |bytes| ==> Byte(w, g, i, x) == bytes[x - lo])
  }

  /** Writing within one block. */
  lemma PatchWrites(u: Vol, v: Vol, g: Geo, k: Book, l: Book, i: int, lo: nat, bytes: seq<byte>)
    requires Owned(v, g, l) && InUse(v, g, i) && lo / BLOCK_SIZE < l.nb[i]
    requires lo % BLOCK_SIZE + |bytes| <= BLOCK_SIZE
    requires SameFiles(u, v, g, k) && forall j :: Inum(g, j) ==> k.nb[j] <= l.nb[j]
    ensures DataAddr(g, Addr(v, g, i, lo / BLOCK_SIZE))
    ensures var b := Addr(v, g, i, lo / BLOCK_SIZE) - g.bd;
            Wrote(u, Store(v, b, Patch(v.data[b], lo % BLOCK_SIZE, bytes)), g, k, i, lo, bytes)
  {
    hide Word, Addr, Patch;
    var pos := lo / BLOCK_SIZE;
    assert PosOk(v, g, l, i, pos);
    var b := Addr(v, g, i, pos) - g.bd;
    var blk := Patch(v.data[b], lo % BLOCK_SIZE, bytes);
    var w := Store(v, b, blk);
    forall j, x | Holds(u, g, k, j, x) && !(j == i && lo <= x < lo + |bytes|)
      ensures Byte(w, g, j, x) == Byte(u, g, j, x)
    {
      assert SameButAddrs(u.tab[j], v.tab[j]);
      assert Holds(v, g, l, j, x);
      StoreBytes(v, g, l, i, pos, blk, j, x);
      if j == i && x / BLOCK_SIZE == pos { assert blk[x % BLOCK_SIZE] == v.data[b][x % BLOCK_SIZE]; }
    }
    forall x | lo <= x < lo + |bytes| ensures Byte(w, g, i, x) == bytes[x - lo] {
      assert x / BLOCK_SIZE == pos && x % BLOCK_SIZE == lo % BLOCK_SIZE + (x - lo);
      assert Holds(v, g, l, i, x);
      StoreBytes(v, g, l, i, pos, blk, i, x);
    }
  }

  lemma WroteStep(u: Vol, v: Vol, w: Vol, g: Geo, k: Book, l: Book, i: int, lo: nat,
                  done: seq<byte>, more: seq<byte>)
    requires Wrote(u, v, g, k, i, lo, done) && Wrote(v, w, g, l, i, lo + |done|, more)
    requires InUse(v, g, i) && lo + |done| <= l.nb[i] * BLOCK_SIZE
    requires forall j :: Inum(g, j) ==> k.nb[j] <= l.nb[j] && SameButAddrs(u.tab[j], v.tab[j])
    ensures Wrote(u, w, g, k, i, lo, done + more)
  {
    hide Byte;
    var all := done + more;
    forall j, x | Holds(u, g, k, j, x) && !(j == i && lo <= x < lo + |all|)
      ensures Byte(w, g, j, x) == Byte(u, g, j, x)
    {
      assert SameButAddrs(u.tab[j], v.tab[j]);
      assert Holds(v, g, l, j, x);
    }
    forall x | lo <= x < lo + |all| ensures Byte(w, g, i, x) == all[x - lo] {
      if x < lo + |done| { assert Holds(v, g, l, i, x); }
    }
  }

  lemma WroteNothing(v: Vol, g: Geo, k: Book, i: int, lo: nat)
    requires Shape(v, g) && |k.nb| == g.ninodes && Inum(g, i) && lo <= MAX_BLOCKS * BLOCK_SIZE
    ensures Wrote(v, v, g, k, i, lo, [])
  {
  }

  /** A byte sequence with `src` written over it at `off`, longer if needed. */
  function Splice(s: seq<byte>, off: nat, src: seq<byte>): seq<byte>
    requires off <= |s|
  {
    s[..off] + src + if off + |src| < |s| then s[off + |src|..] else []
  }

  /** Every other in-use inode and its contents are as before. */
  ghost predicate OthersKept(v: Vol, w: Vol, g: Geo, i: int) {
    && Shape(v, g) && Shape(w, g)
    && (forall j :: Inum(g, j) && j != i ==> w.tab[j] == v.tab[j])
    && (forall j :: InUse(v, g, j) && j != i && v.tab[j].size <= MAX_BLOCKS * BLOCK_SIZE ==>
          Contents(w, g, j) == Contents(v, g, j))
  }

  lemma OthersKeptTrans(u: Vol, v: Vol, w: Vol, g: Geo, i: int)
    requires OthersKept(u, v, g, i) && OthersKept(v, w, g, i)
    ensures OthersKept(u, w, g, i)
  {
    hide Contents;
    forall j | InUse(u, g, j) && j != i
      ensures w.tab[j] == u.tab[j]
              && (u.tab[j].size <= MAX_BLOCKS * BLOCK_SIZE ==> Contents(w, g, j) == Contents(u, g, j))
    {
      assert InUse(v, g, j);
    }
  }

  /** Every plain file, apart from those in `gone`, is still one and holds the same. */
  ghost predicate FilesKept(v: Vol, w: Vol, g: Geo, gone: set<int>) {
    && Shape(v, g) && Shape(w, g)
    && forall j :: Inum(g, j) && j !in gone && v.tab[j].typ == FILE && v.tab[j].size <= MAX_BLOCKS * BLOCK_SIZE ==> FileKept(v, w, g, j)
  }

  ghost predicate FileKept(v: Vol, w: Vol, g: Geo, j: int)
    requires Shape(v, g) && Shape(w, g) && Inum(g, j) && v.tab[j].size <= MAX_BLOCKS * BLOCK_SIZE
  {
    w.tab[j].typ == FILE && w.tab[j].size == v.tab[j].size && Contents(w, g, j) == Contents(v, g, j)
  }

  lemma FilesKeptTrans(u: Vol, v: Vol, w: Vol, g: Geo, a: set<int>, b: set<int>)
    requires FilesKept(u, v, g, a) && FilesKept(v, w, g, b)
    ensures FilesKept(u, w, g, a + b)
  {
    hide Contents;
    forall j | Inum(g, j) && j !in a + b && u.tab[j].typ == FILE && u.tab[j].size <= MAX_BLOCKS * BLOCK_SIZE ensures FileKept(u, w, g, j) {
      assert FileKept(u, v, g, j) && FileKept(v, w, g, j);
    }
  }

  lemma FilesKeptChain(u: Vol, v: Vol, w: Vol, g: Geo)
    requires FilesKept(u, v, g, {}) && FilesKept(v, w, g, {})
    ensures FilesKept(u, w, g, {})
  {
    hide FilesKept;
    FilesKeptTrans(u, v, w, g, {}, {});
    var none: set<int> := {};
    assert none + none == none;
  }

  lemma FilesKeptOthers(v: Vol, w: Vol, g: Geo, i: int)
    requires OthersKept(v, w, g, i)
    ensures FilesKept(v, w, g, {i})
    ensures Inum(g, i) && v.tab[i].typ != FILE ==> FilesKept(v, w, g, {})
  {
    hide Contents;
    forall j | Inum(g, j) && j != i && v.tab[j].typ == FILE && v.tab[j].size <= MAX_BLOCKS * BLOCK_SIZE ensures FileKept(v, w, g, j) {
      assert InUse(v, g, j);
    }
  }

  lemma FilesKeptRefl(v: Vol, g: Geo)
    requires Shape(v, g)
    ensures FilesKept(v, v, g, {})
  {
    hide Contents;
  }

  /** The files after a write, as byte sequences. */
  lemma WroteContents(v: Vol, w: Vol, g: Geo, k: Book, i: int, off: nat, src: seq<byte>)
    requires Settled(v, g, k) && Wrote(v, w, g, k, i, off, src) && InUse(v, g, i)
    requires off <= v.tab[i].size <= MAX_BLOCKS * BLOCK_SIZE
    requires w.tab[i].size == if off + |src| > v.tab[i].size then off + |src| else v.tab[i].size
    ensures Contents(w, g, i) == Splice(Contents(v, g, i), off, src)
    ensures forall j :: InUse(v, g, j) && j != i && w.tab[j].size == v.tab[j].size <= MAX_BLOCKS * BLOCK_SIZE ==>
              Contents(w, g, j) == Contents(v, g, j)
  {
    hide Byte;
    var r := Splice(Contents(v, g, i), off, src);
    forall x | 0 <= x < w.tab[i].size ensures Byte(w, g, i, x) == r[x] {
      if !(off <= x < off + |src|) { assert Holds(v, g, k, i, x); }
    }
    assert Contents(w, g, i) == r;
    forall j | InUse(v, g, j) && j != i && w.tab[j].size == v.tab[j].size <= MAX_BLOCKS * BLOCK_SIZE
      ensures Contents(w, g, j) == Contents(v, g, j)
    {
      forall x | 0 <= x < v.tab[j].size ensures Byte(w, g, j, x) == Byte(v, g, j, x) {
        assert Holds(v, g, k, j, x);
      }
    }
  }

  /** How many blocks the byte range from `off` to `end` touches. */
  function Spanned(off: nat, end: nat): int {
    if end <= off then 0 else (end - 1) / BLOCK_SIZE - off / BLOCK_SIZE + 1
  }

  lemma TurnMath(off: nat, o: nat, m: nat)
    requires off <= o && 1 <= m <= BLOCK_SIZE - o % BLOCK_SIZE && (o == off || o % BLOCK_SIZE == 0)
    ensures Spanned(off, o + m) == Spanned(off, o) + 1
    ensures Needed(o + m) == o / BLOCK_SIZE + 1 && o / BLOCK_SIZE <= Needed(o) <= o / BLOCK_SIZE + 1
    ensures m == BLOCK_SIZE - o % BLOCK_SIZE ==> (o + m) % BLOCK_SIZE == 0
  {
  }

  /** A chunk of at most 1536 bytes: with no holes, at most four file blocks and
      at most four allocations, counting the indirect block. */
  lemma ChunkMath(size: nat, off: nat, n: nat)
    requires off <= size && n <= 3 * BLOCK_SIZE
    ensures Spanned(off, off + n) <= 4
    ensures Needed(off + n) > Needed(size) ==> Needed(off + n) - Needed(size) <= 3
  {
  }

  function Max(a: nat, b: nat): nat { if a < b then b else a }

  /** The disk block that holds inode `i`. */
  function InodeBlockNo(g: Geo, i: nat): nat { g.inodeStart + i / INODES_PER_BLOCK }

  /** The bitmap block that covers the data block at `addr`. */
  function BmOf(g: Geo, addr: int): nat {
    if addr < g.bd then 0 else g.bmapStart + (addr - g.bd) / BITS_PER_BLOCK
  }

  /** What the code's state looks like at one moment. */
  datatype Snap = Snap(v: Vol, k: Book, dirty: set<nat>)

  /** Blocks are in place up to `lo`, with an indirect block just if needed. */
  predicate Fits(k: Book, i: int, lo: nat) {
    0 <= i < |k.nb| && Needed(lo) <= k.nb[i] && (i in k.ind <==> k.nb[i] > NDIRECT)
  }

  /** The blocks of `i` now reach up to `end`; other inodes keep theirs. */
  predicate Reaches(k: Book, l: Book, i: int, end: nat) {
    && |l.nb| == |k.nb| && 0 <= i < |k.nb|
    && l.nb == k.nb[i := Max(k.nb[i], Needed(end))]
    && (i in l.ind <==> l.nb[i] > NDIRECT)
    && l.ind - {i} == k.ind - {i}
  }

  /** `dd` holds the file blocks that were logged and `bm` the bitmap blocks, at
      most one for each block that was allocated. */
  ghost predicate Logged(s: Snap, t: Snap, i: int, dd: set<nat>, bm: set<nat>) {
    && 0 <= i < |t.v.tab| && |t.v.tab[i].addrs| == NDIRECT + 1 && i < |s.k.nb| == |t.k.nb|
    && t.dirty <= s.dirty + dd + IndSet(t.v.tab[i]) + bm
    && |bm| + s.k.nb[i] <= t.k.nb[i] + (if i in s.k.ind || i !in t.k.ind then 0 else 1)
  }

  /** `bytes` have been copied into inode `i` at `lo`. */
  ghost predicate Copied(s: Snap, t: Snap, g: Geo, i: nat, lo: nat, bytes: seq<byte>, dd: set<nat>, bm: set<nat>) {
    && Owned(t.v, g, t.k)
    && Wrote(s.v, t.v, g, s.k, i, lo, bytes)
    && Reaches(s.k, t.k, i, lo + |bytes|)
    && Touched(i, s.v.tab, t.v.tab)
    && (t.k.nb == s.k.nb ==> t.v.tab == s.v.tab)
    && Logged(s, t, i, dd, bm)
  }

  /** The effect of bmap: position `bn` of inode `i` is at `addr`; what was not
      there has been allocated, and no byte of any file has changed. */
  ghost predicate Mapped(s: Snap, t: Snap, g: Geo, i: nat, bn: nat, addr: nat, bm: set<nat>) {
    && Owned(t.v, g, t.k) && DataAddr(g, addr) && InUse(t.v, g, i) && bn < t.k.nb[i]
    && Addr(t.v, g, i, bn) == addr
    && SameFiles(s.v, t.v, g, s.k)
    && |t.k.nb| == |s.k.nb| && i < |s.k.nb| && t.k.nb == s.k.nb[i := Max(s.k.nb[i], bn + 1)]
    && t.k.ind == (if bn >= NDIRECT then s.k.ind + {i} else s.k.ind)
    && Touched(i, s.v.tab, t.v.tab)
    && (t.k.nb == s.k.nb ==> t.v.tab == s.v.tab)
    && Logged(s, t, i, {addr}, bm)
  }

  lemma MappedStore(s: Snap, t: Snap, g: Geo, i: nat, lo: nat, bytes: seq<byte>, addr: nat, bm: set<nat>)
    requires Mapped(s, t, g, i, lo / BLOCK_SIZE, addr, bm) && Fits(s.k, i, lo)
    requires 0 < |bytes| && lo % BLOCK_SIZE + |bytes| <= BLOCK_SIZE
    ensures 0 <= addr - g.bd < |t.v.data|
    ensures var b := addr - g.bd;
            var u := Snap(Vol(t.v.bits, t.v.data[b := Patch(t.v.data[b], lo % BLOCK_SIZE, bytes)], t.v.tab),
                          t.k, t.dirty + {addr});
            Copied(s, u, g, i, lo, bytes, {addr}, bm)
  {
    hide Word, Addr, Patch, Needed, Owned, SameFiles, Wrote;
    var bn, b := lo / BLOCK_SIZE, addr - g.bd;
    OneBlock(lo, |bytes|);
    MappedOwner(t, g, i, bn, addr);
    PatchWrites(s.v, t.v, g, s.k, t.k, i, lo, bytes);
    StoreOwned(t.v, g, t.k, b, Patch(t.v.data[b], lo % BLOCK_SIZE, bytes));
  }

  lemma MappedAddr(s: Snap, t: Snap, g: Geo, i: nat, bn: nat, addr: nat, bm: set<nat>)
    requires Mapped(s, t, g, i, bn, addr, bm) && bn <= INDIRECT
    ensures Shape(t.v, g) && Inum(g, i) && Addr(t.v, g, i, bn) == addr && DataAddr(g, addr)
  {
  }

  /** A write into one block that the file has: this block changes and is logged. */
  ghost predicate Overwrote(s: Snap, t: Snap, g: Geo, i: nat, lo: nat, bytes: seq<byte>) {
    && Shape(s.v, g) && Inum(g, i) && lo / BLOCK_SIZE < MAX_BLOCKS && lo % BLOCK_SIZE + |bytes| <= BLOCK_SIZE
    && var a := Addr(s.v, g, i, lo / BLOCK_SIZE);
       && DataAddr(g, a)
       && t == Snap(Store(s.v, a - g.bd, Patch(s.v.data[a - g.bd], lo % BLOCK_SIZE, bytes)), s.k, s.dirty + {a})
  }

  /** The range from `off` lies in one block that the file has. */
  predicate OneHeld(nb: nat, off: nat, n: nat) {
    0 < n && off % BLOCK_SIZE + n <= BLOCK_SIZE && off / BLOCK_SIZE < nb
  }

  lemma MappedOwner(t: Snap, g: Geo, i: nat, bn: nat, addr: nat)
    requires Owned(t.v, g, t.k) && InUse(t.v, g, i) && bn < t.k.nb[i] && Addr(t.v, g, i, bn) == addr
    ensures DataAddr(g, addr) && addr - g.bd in t.k.owner && t.k.owner[addr - g.bd].pos != INDIRECT
    ensures Shape(t.v, g) && |t.k.nb| == g.ninodes
  {
    hide Word, Addr;
    assert PosOk(t.v, g, t.k, i, bn);
  }

  /** Inode `i` can be written at `lo`. */
  ghost predicate Ready(s: Snap, g: Geo, i: nat, lo: nat) {
    Owned(s.v, g, s.k) && InUse(s.v, g, i) && Fits(s.k, i, lo)
  }

  /** A fresh block at `addr` has been attached at position `pos`. */
  ghost predicate Extended(s: Snap, t: Snap, g: Geo, i: nat, pos: nat, addr: nat) {
    && Owned(t.v, g, t.k) && DataAddr(g, addr) && InUse(t.v, g, i) && i < |s.k.nb|
    && pos <= INDIRECT && Addr(t.v, g, i, pos) == addr
    && SameFiles(s.v, t.v, g, s.k)
    && t.k == Attach(s.k, addr - g.bd, i, pos)
    && Touched(i, s.v.tab, t.v.tab)
    && t.dirty <= s.dirty + {BmOf(g, addr), addr} + IndSet(t.v.tab[i])
  }

  lemma ExtendedBy(s: Snap, g: Geo, i: nat, pos: nat, addr: nat, t: Snap)
    requires Owned(s.v, g, s.k) && InUse(s.v, g, i) && pos <= INDIRECT && NextFree(s.k, i, pos)
    requires DataAddr(g, addr) && !s.v.bits[addr - g.bd] && Shape(Alloc(s.v, addr - g.bd), g)
    requires NDIRECT <= pos < INDIRECT ==> DataAddr(g, s.v.tab[i].addrs[NDIRECT])
    requires t.v == Recorded(Alloc(s.v, addr - g.bd), g, i, pos, addr)
    requires t.k == Attach(s.k, addr - g.bd, i, pos)
    requires Touched(i, s.v.tab, t.v.tab)
    requires t.dirty <= s.dirty + {BmOf(g, addr), addr} + IndSet(t.v.tab[i])
    ensures Extended(s, t, g, i, pos, addr)
  {
    hide Word, PutWord, Byte, Recorded, Alloc;
    var b := addr - g.bd;
    RecordAttaches(s.v, g, s.k, i, pos, b);
    AttachOwned(s.v, t.v, g, s.k, i, pos, b);
    AttachSameFiles(s.v, t.v, g, s.k, i, pos, b);
    hide Addr, Owned, SameFiles;
    assert SameButAddrs(s.v.tab[i], t.v.tab[i]);
  }

  /** What bmap finds at a position: nothing exactly if it is not used. */
  lemma Lookup(s: Snap, g: Geo, i: nat, bn: nat)
    requires Owned(s.v, g, s.k) && InUse(s.v, g, i) && bn < MAX_BLOCKS && bn <= s.k.nb[i]
    ensures i < |s.v.tab| && |s.v.tab[i].addrs| == NDIRECT + 1 && |s.v.data| == g.nbits
    ensures s.v.tab[i].addrs[NDIRECT] == 0 <==> i !in s.k.ind
    ensures i in s.k.ind ==> DataAddr(g, s.v.tab[i].addrs[NDIRECT])
    ensures bn < NDIRECT || i in s.k.ind ==>
              var a := if bn < NDIRECT then s.v.tab[i].addrs[bn]
                       else Word(s.v.data[s.v.tab[i].addrs[NDIRECT] - g.bd], bn - NDIRECT);
              && (a == 0 <==> bn == s.k.nb[i]) && (a == 0 ==> NextFree(s.k, i, bn))
              && (a != 0 ==> Mapped(s, s, g, i, bn, a, {}))
    ensures i !in s.k.ind && bn >= NDIRECT ==> bn == NDIRECT == s.k.nb[i] && NextFree(s.k, i, INDIRECT)
  {
    hide Word, Byte;
    assert PosOk(s.v, g, s.k, i, bn) && PosOk(s.v, g, s.k, i, INDIRECT);
    SameFilesRefl(s.v, g, s.k);
  }

  /** Attaching at the next file position maps it. */
  lemma ExtendedMaps(s: Snap, t: Snap, g: Geo, i: nat, bn: nat, addr: nat)
    requires Extended(s, t, g, i, bn, addr) && bn < MAX_BLOCKS && NextFree(s.k, i, bn)
    ensures Mapped(s, t, g, i, bn, addr, {BmOf(g, addr)})
  {
    hide Owned, SameFiles, Addr;
    assert bn >= NDIRECT ==> s.k.ind + {i} == s.k.ind;
  }

  lemma ExtendedFacts(s: Snap, t: Snap, g: Geo, i: nat)
    requires exists addr :: Extended(s, t, g, i, INDIRECT, addr)
    requires NextFree(s.k, i, INDIRECT) && s.k.nb[i] == NDIRECT
    ensures Owned(t.v, g, t.k) && InUse(t.v, g, i) && t.k.nb == s.k.nb && t.k.ind == s.k.ind + {i}
    ensures NextFree(t.k, i, NDIRECT)
  {
  }

  /** First the indirect block, then the data block in it. */
  lemma ExtendedTwice(s: Snap, t: Snap, u: Snap, g: Geo, i: nat, a: nat, addr: nat)
    requires Extended(s, t, g, i, INDIRECT, a) && Extended(t, u, g, i, NDIRECT, addr)
    requires NextFree(s.k, i, INDIRECT) && s.k.nb[i] == NDIRECT
    ensures Mapped(s, u, g, i, NDIRECT, addr,
                   {BmOf(g, a)} + {BmOf(g, addr)})
  {
    SameFilesTrans(s.v, t.v, u.v, g, s.k, t.k);
    assert t.v.tab[i].addrs[NDIRECT] == a == u.v.tab[i].addrs[NDIRECT] by { hide Word; }
    hide Owned, SameFiles, Addr;
    assert SameButAddrs(s.v.tab[i], u.v.tab[i]);
  }

  lemma OneBlock(lo: nat, n: nat)
    requires 0 < n && lo % BLOCK_SIZE + n <= BLOCK_SIZE
    ensures Needed(lo + n) == lo / BLOCK_SIZE + 1 && lo / BLOCK_SIZE <= Needed(lo) <= lo / BLOCK_SIZE + 1
  {
  }

  lemma CopiedNothing(s: Snap, g: Geo, i: nat, lo: nat)
    requires Ready(s, g, i, lo) && lo <= MAX_BLOCKS * BLOCK_SIZE
    ensures Copied(s, s, g, i, lo, [], {}, {}) && Spanned(lo, lo) == 0
  {
    hide Needed;
    WroteNothing(s.v, g, s.k, i, lo);
  }

  lemma OwnedSizes(s: Snap, g: Geo)
    requires Owned(s.v, g, s.k)
    ensures Shape(s.v, g) && |s.k.nb| == g.ninodes
  {
  }

  lemma TouchedAll(s: Snap, t: Snap, g: Geo, i: nat)
    requires Touched(i, s.v.tab, t.v.tab) && |s.v.tab| == g.ninodes
    ensures forall j :: Inum(g, j) ==> SameButAddrs(s.v.tab[j], t.v.tab[j])
  {
  }

  lemma LoggedTrans(s: Snap, t: Snap, u: Snap, i: int, dd: set<nat>, bm: set<nat>, d1: set<nat>, b1: set<nat>)
    requires Logged(s, t, i, dd, bm) && Logged(t, u, i, d1, b1) && Touched(i, t.v.tab, u.v.tab)
    requires i in s.k.ind ==> i in t.k.ind
    requires i in t.k.ind ==> i in u.k.ind
    ensures Logged(s, u, i, dd + d1, bm + b1)
  {
    assert |bm + b1| <= |bm| + |b1|;
  }

  lemma ReachesTrans(k: Book, l: Book, m: Book, i: int, mid: nat, end: nat)
    requires Reaches(k, l, i, mid) && Reaches(l, m, i, end) && mid <= end && Needed(mid) <= Needed(end)
    ensures Reaches(k, m, i, end)
  {
    hide Needed;
    assert k.nb[i := l.nb[i]][i := m.nb[i]] == k.nb[i := m.nb[i]];
  }

  lemma NeededMath(a: nat, b: nat)
    requires a <= b
    ensures Needed(a) <= Needed(b) && a <= Needed(a) * BLOCK_SIZE
  {
  }

  lemma CopiedTrans(s: Snap, t: Snap, u: Snap, g: Geo, i: nat, lo: nat, done: seq<byte>, more: seq<byte>,
                    dd: set<nat>, bm: set<nat>, d1: set<nat>, b1: set<nat>)
    requires Copied(s, t, g, i, lo, done, dd, bm) && Copied(t, u, g, i, lo + |done|, more, d1, b1)
    requires Ready(s, g, i, lo) && Ready(t, g, i, lo + |done|)
    ensures Copied(s, u, g, i, lo, done + more, dd + d1, bm + b1)
    ensures Ready(u, g, i, lo + |done + more|)
  {
    hide Owned, Wrote, Needed, Logged;
    var mid, end := lo + |done|, lo + |done + more|;
    NeededMath(mid, end);
    ReachesTrans(s.k, t.k, u.k, i, mid, end);
    LoggedTrans(s, t, u, i, dd, bm, d1, b1);
    OwnedSizes(s, g);
    OwnedSizes(t, g);
    TouchedAll(s, t, g, i);
    WroteStep(s.v, t.v, u.v, g, s.k, t.k, i, lo, done, more);
    assert SameButAddrs(t.v.tab[i], u.v.tab[i]);
  }

  /** One turn of the loop, in terms of the source buffer. */
  lemma CopiedTurn(s: Snap, t: Snap, u: Snap, g: Geo, i: nat, lo: nat, src: seq<byte>, total: nat, m: nat,
                   dd: set<nat>, bm: set<nat>, d1: set<nat>, b1: set<nat>)
    requires total + m <= |src| && Copied(s, t, g, i, lo, src[..total], dd, bm)
    requires Copied(t, u, g, i, lo + total, src[total..total + m], d1, b1)
    requires Ready(s, g, i, lo) && Ready(t, g, i, lo + total)
    ensures Copied(s, u, g, i, lo, src[..total + m], dd + d1, bm + b1)
    ensures Ready(u, g, i, lo + total + m)
  {
    hide Copied, Ready;
    CopiedTrans(s, t, u, g, i, lo, src[..total], src[total..total + m], dd, bm, d1, b1);
    assert src[..total] + src[total..total + m] == src[..total + m];
  }

  function SetSize(v: Vol, i: nat, size: nat): Vol
    requires i < |v.tab|
  {
    v.(tab := v.tab[i := v.tab[i].(size := size)])
  }

  lemma SetSizeKeeps(v: Vol, g: Geo, k: Book, i: nat, size: nat)
    requires Owned(v, g, k) && Inum(g, i)
    ensures Owned(SetSize(v, i, size), g, k)
    ensures forall j, x :: Inum(g, j) && 0 <= x < MAX_BLOCKS * BLOCK_SIZE ==>
              Byte(SetSize(v, i, size), g, j, x) == Byte(v, g, j, x)
  {
    hide Word;
    var w := SetSize(v, i, size);
    forall j, pos | Inum(g, j) && 0 <= pos <= INDIRECT ensures Addr(w, g, j, pos) == Addr(v, g, j, pos) {
      AddrSame(v, w, g, j, pos);
    }
    hide Addr;
    forall j, pos | InUse(w, g, j) && 0 <= pos <= INDIRECT ensures PosOk(w, g, k, j, pos) {
      assert PosOk(v, g, k, j, pos);
    }
    forall b | b in k.owner ensures BitOk(w, g, k, b) { assert BitOk(v, g, k, b); }
  }

  /** The state after the copy loop, with the size raised if it must be. */
  function Final(s: Vol, t: Vol, i: nat, end: nat): Vol
    requires i < |t.tab| && i < |s.tab|
  {
    if end > s.tab[i].size then SetSize(t, i, end) else t
  }

  lemma SizeBound(v: Vol, g: Geo, k: Book, i: int)
    requires Owned(v, g, k) && Settled(v, g, k) && InUse(v, g, i)
    ensures v.tab[i].size <= MAX_BLOCKS * BLOCK_SIZE && Fits(k, i, v.tab[i].size)
  {
  }

  lemma NeededMax(a: nat, b: nat)
    ensures Needed(if b > a then b else a) == Max(Needed(a), Needed(b))
  {
  }

  lemma FinalSettled(s: Snap, t: Snap, g: Geo, i: nat, end: nat)
    requires Settled(s.v, g, s.k) && InUse(s.v, g, i) && Touched(i, s.v.tab, t.v.tab) && Reaches(s.k, t.k, i, end)
    ensures Settled(Final(s.v, t.v, i, end), g, t.k)
  {
    NeededMax(s.v.tab[i].size, end);
    hide Needed;
    var u := Final(s.v, t.v, i, end);
    forall j | InUse(u, g, j) ensures t.k.nb[j] == Needed(u.tab[j].size) && (j in t.k.ind <==> t.k.nb[j] > NDIRECT) {
      if j != i { assert InUse(s.v, g, j) && (j in t.k.ind - {i} <==> j in s.k.ind - {i}); }
    }
  }

  lemma FinalWrote(s: Snap, t: Snap, g: Geo, i: nat, off: nat, src: seq<byte>)
    requires Owned(t.v, g, t.k) && Wrote(s.v, t.v, g, s.k, i, off, src)
    ensures Owned(Final(s.v, t.v, i, off + |src|), g, t.k)
    ensures Wrote(s.v, Final(s.v, t.v, i, off + |src|), g, s.k, i, off, src)
  {
    hide Byte;
    if off + |src| > s.v.tab[i].size { SetSizeKeeps(t.v, g, t.k, i, off + |src|); }
  }

  /** After a complete write there are again no holes, and the file is the old
      one with the source bytes spliced in; all other files are unchanged. */
  lemma WriteDone(s: Snap, t: Snap, g: Geo, i: nat, off: nat, src: seq<byte>, dd: set<nat>, bm: set<nat>)
    requires Owned(s.v, g, s.k) && Settled(s.v, g, s.k) && InUse(s.v, g, i)
    requires off <= s.v.tab[i].size <= MAX_BLOCKS * BLOCK_SIZE && off + |src| <= MAX_BLOCKS * BLOCK_SIZE
    requires Copied(s, t, g, i, off, src, dd, bm)
    ensures var u := Final(s.v, t.v, i, off + |src|);
            Owned(u, g, t.k) && Settled(u, g, t.k) && Spliced(s.v, u, g, i, off, src)
  {
    hide Wrote, Needed, Contents, Splice, Byte;
    var u := Final(s.v, t.v, i, off + |src|);
    OwnedSizes(s, g);
    FinalSettled(s, t, g, i, off + |src|);
    FinalWrote(s, t, g, i, off, src);
    hide Owned;
    WroteContents(s.v, u, g, s.k, i, off, src);
    assert forall j :: InUse(s.v, g, j) && j != i ==> u.tab[j] == s.v.tab[j];
  }

  lemma SettledSize(s: Snap, g: Geo, i: nat)
    requires Owned(s.v, g, s.k) && Settled(s.v, g, s.k) && InUse(s.v, g, i)
    ensures i < |s.k.nb| && s.v.tab[i].size <= s.k.nb[i] * BLOCK_SIZE
  {
    NeededMath(s.v.tab[i].size, s.v.tab[i].size);
  }

  lemma HeldInside(nb: nat, off: nat, n: nat, size: nat)
    requires size <= nb * BLOCK_SIZE
    ensures 0 < n && off % BLOCK_SIZE + n <= BLOCK_SIZE && off + n <= size ==> OneHeld(nb, off, n)
  {
  }

  lemma CopiedReaches(s: Snap, t: Snap, g: Geo, i: nat, off: nat, src: seq<byte>, dd: set<nat>, bm: set<nat>)
    requires Copied(s, t, g, i, off, src, dd, bm) && Ready(s, g, i, off)
    ensures Reaches(s.k, t.k, i, off + |src|) && (i in s.k.ind ==> i in t.k.ind)
  {
    hide Owned, Wrote, Needed, Logged;
  }

  lemma ReadyFits(s: Snap, g: Geo, i: nat, lo: nat)
    requires Ready(s, g, i, lo)
    ensures Fits(s.k, i, lo) && i < |s.k.nb|
  {
    hide Needed, Owned;
  }

  lemma ReadyAt(s: Snap, g: Geo, i: nat, off: nat)
    requires Owned(s.v, g, s.k) && InUse(s.v, g, i) && Fits(s.k, i, s.v.tab[i].size) && off <= s.v.tab[i].size
    ensures Ready(s, g, i, off)
  {
    NeededMath(off, s.v.tab[i].size);
  }

  lemma CopiedTab(s: Snap, t: Snap, g: Geo, i: nat, off: nat, src: seq<byte>, dd: set<nat>, bm: set<nat>)
    requires Copied(s, t, g, i, off, src, dd, bm)
    ensures |t.v.tab| == |s.v.tab| && i < |t.v.tab| && t.v.tab[i].size == s.v.tab[i].size
    ensures forall j :: 0 <= j < |t.v.tab| && j != i ==> t.v.tab[j] == s.v.tab[j]
  {
  }

  /** A write that does not grow the file leaves its inode untouched. */
  lemma NoGrowth(s: Snap, t: Snap, g: Geo, i: nat, off: nat, src: seq<byte>, dd: set<nat>, bm: set<nat>)
    requires Settled(s.v, g, s.k) && InUse(s.v, g, i) && Copied(s, t, g, i, off, src, dd, bm)
    requires off + |src| <= s.v.tab[i].size
    ensures t.v.tab == s.v.tab
  {
    NeededMath(off + |src|, s.v.tab[i].size);
    hide Owned, Wrote, Needed, Logged;
    assert t.k.nb == s.k.nb;
  }

  /** File `i` has had `src` spliced in at `off`; no other file is affected. */
  ghost predicate Spliced(v: Vol, w: Vol, g: Geo, i: nat, off: nat, src: seq<byte>) {
    && Shape(v, g) && Shape(w, g) && Inum(g, i)
    && off <= v.tab[i].size <= MAX_BLOCKS * BLOCK_SIZE && w.tab[i].size <= MAX_BLOCKS * BLOCK_SIZE
    && Contents(w, g, i) == Splice(Contents(v, g, i), off, src)
    && w.tab[i] == v.tab[i].(addrs := w.tab[i].addrs, size := w.tab[i].size)
    && OthersKept(v, w, g, i)
  }

  /** How many blocks a write of `n` bytes at `off` logs at most, the inode apart: file
      blocks, the indirect block, and a bitmap block for each allocation. */
  function Cost(size: nat, off: nat, n: nat): nat {
    Spanned(off, off + n) + (if Max(Needed(size), Needed(off + n)) > NDIRECT then 1 else 0) + Added(size, off + n)
  }

  /** How many blocks a file of `size` bytes without holes gets when it is written up to
      `end`, the indirect block counted. */
  function Added(size: nat, end: nat): nat {
    var was := Needed(size);
    var now := Max(was, Needed(end));
    now - was + if now > NDIRECT >= was then 1 else 0
  }

  /** At most `n` blocks have been logged besides those in `fixed`. */
  predicate Grows(before: set<nat>, after: set<nat>, fixed: set<nat>, n: nat) {
    |after - before - fixed| <= n
  }

  lemma GrowsTrans(a: set<nat>, b: set<nat>, c: set<nat>, f: set<nat>, h: set<nat>, m: nat, n: nat)
    requires Grows(a, b, f, m) && Grows(b, c, h, n)
    ensures Grows(a, c, f + h, m + n)
  {
    var x, y := b - a - f, c - b - h;
    assert |x + y| <= |x| + |y|;
    SubsetSize(c - a - (f + h), x + y);
  }

  lemma GrowsFixed(a: set<nat>, b: set<nat>, f: set<nat>)
    requires b <= a + f
    ensures Grows(a, b, f, 0)
  {
    assert b - a - f == {};
  }

  lemma GrowsTotal(a: set<nat>, b: set<nat>, f: set<nat>, n: nat)
    requires Grows(a, b, f, n)
    ensures |b - a| <= n + |f|
  {
    var x := b - a - f;
    assert |x + f| <= |x| + |f|;
    SubsetSize(b - a, x + f);
  }

  /** A chunk of at most 1536 bytes logs at most ten distinct blocks: four file
      blocks, the indirect block, the inode and four bitmap blocks. */
  lemma TenBlocks(size: nat, off: nat, n: nat)
    requires off <= size && n <= 3 * BLOCK_SIZE
    ensures Cost(size, off, n) + 1 <= 10
  {
    ChunkMath(size, off, n);
    hide Needed, Spanned;
  }

  /** What the copy loop has logged, with the inode added or not. */
  lemma CopiedCost(s: Snap, t: Snap, g: Geo, i: nat, off: nat, src: seq<byte>, dd: set<nat>, bm: set<nat>, inode: nat)
    requires Settled(s.v, g, s.k) && InUse(s.v, g, i) && Copied(s, t, g, i, off, src, dd, bm)
    requires |dd| <= Spanned(off, off + |src|)
    ensures Grows(s.dirty, t.dirty, {inode}, Cost(s.v.tab[i].size, off, |src|))
    ensures Grows(s.dirty, t.dirty + {inode}, {inode}, Cost(s.v.tab[i].size, off, |src|))
  {
    CopiedIndirect(s, t, g, i, off, src, dd, bm);
    hide Owned, Wrote, Needed, Spanned;
    var ind := IndSet(t.v.tab[i]);
    var all := dd + ind + bm;
    assert |all| <= |dd| + |ind| + |bm|;
    SubsetSize(t.dirty - s.dirty - {inode}, all);
    SubsetSize((t.dirty + {inode}) - s.dirty - {inode}, all);
  }

  lemma CopiedIndirect(s: Snap, t: Snap, g: Geo, i: nat, off: nat, src: seq<byte>, dd: set<nat>, bm: set<nat>)
    requires InUse(s.v, g, i) && Copied(s, t, g, i, off, src, dd, bm)
    ensures i !in t.k.ind ==> IndSet(t.v.tab[i]) == {}
  {
    hide Wrote, Needed, Owned;
    OwnedSizes(t, g);
    if i !in t.k.ind { NoIndirect(t.v, g, t.k, i); }
  }

  // ------------------------------------------------------------------
  // Everything that changes is logged
  // ------------------------------------------------------------------

  /** What the disk blocks of a volume hold, through the cache, and which of them
      have been passed to log_write. */
  datatype Image = Image(bits: seq<bool>, data: seq<Block>, slots: seq<Dinode>, dirty: set<nat>)

  /** The volume's disk blocks, with `dirty` logged. */
  function ImageOf(v: Vol, dirty: set<nat>): Image {
    Image(v.bits, v.data, v.tab, dirty)
  }

  predicate BitsLogged(g: Geo, a: seq<bool>, b: seq<bool>, dirty: set<nat>) {
    |a| == |b| && forall c :: 0 <= c < |a| && b[c] != a[c] ==> g.bmapStart + c / BITS_PER_BLOCK in dirty
  }

  predicate DataLogged(g: Geo, a: seq<Block>, b: seq<Block>, dirty: set<nat>) {
    |a| == |b| && forall c :: 0 <= c < |a| && b[c] != a[c] ==> g.bd + c in dirty
  }

  predicate SlotsLogged(g: Geo, a: seq<Dinode>, b: seq<Dinode>, dirty: set<nat>) {
    |a| == |b| && forall i :: 0 <= i < |a| && b[i] != a[i] ==> g.inodeStart + i / INODES_PER_BLOCK in dirty
  }

  /** A block of the volume: data, bitmap or inodes. */
  predicate HomeBlock(g: Geo, x: int) {
    || DataAddr(g, x)
    || (g.bmapStart <= x && BITS_PER_BLOCK * (x - g.bmapStart) < g.nbits)
    || (g.inodeStart <= x && INODES_PER_BLOCK * (x - g.inodeStart) < g.ninodes)
  }

  /** Every block that `b` changes has been logged, and nothing outside the volume. */
  predicate Follows(g: Geo, a: Image, b: Image) {
    && a.dirty <= b.dirty && (forall x :: x in b.dirty ==> x in a.dirty || HomeBlock(g, x))
    && BitsLogged(g, a.bits, b.bits, b.dirty) && DataLogged(g, a.data, b.data, b.dirty) && SlotsLogged(g, a.slots, b.slots, b.dirty)
  }

  lemma FollowsRefl(g: Geo, a: Image)
    ensures Follows(g, a, a)
  {
  }

  /** A store into one data block that is logged. */
  lemma DataFollows(g: Geo, a: Image, b: nat, blk: Block)
    requires b < |a.data| == g.nbits
    ensures Follows(g, a, a.(data := a.data[b := blk], dirty := a.dirty + {g.bd + b}))
  {
  }

  lemma FollowsTrans(g: Geo, a: Image, b: Image, c: Image)
    requires Follows(g, a, b) && Follows(g, b, c)
    ensures Follows(g, a, c)
  {
  }

  lemma BitPlace(k: nat, bit: nat)
    requires bit < BITS_PER_BLOCK
    ensures (BITS_PER_BLOCK * k + bit) / BITS_PER_BLOCK == k
  {
  }

  // ------------------------------------------------------------------
  // Free blocks
  // ------------------------------------------------------------------

  /** The number of clear bits, as get_free_data_blocks counts them. */
  function FreeBits(bits: seq<bool>): nat {
    if bits == [] then 0
    else FreeBits(bits[..|bits| - 1]) + if bits[|bits| - 1] then 0 else 1
  }

  lemma {:induction false} FreeBitsClear(bits: seq<bool>, b: nat)
    requires b < |bits| && bits[b]
    ensures FreeBits(bits[b := false]) == FreeBits(bits) + 1
  {
    var m := |bits| - 1;
    if b == m {
      assert bits[b := false][..m] == bits[..m];
    } else {
      FreeBitsClear(bits[..m], b);
      assert bits[b := false][..m] == bits[..m][b := false];
    }
  }

  lemma FreeBitsSet(bits: seq<bool>, b: nat)
    requires b < |bits| && !bits[b]
    ensures FreeBits(bits[b := true]) + 1 == FreeBits(bits)
  {
    FreeBitsClear(bits[b := true], b);
    assert bits[b := true][b := false] == bits;
  }

  lemma {:induction false} FreeBitsNone(bits: seq<bool>)
    requires forall c :: 0 <= c < |bits| ==> bits[c]
    ensures FreeBits(bits) == 0
  {
    if bits != [] { FreeBitsNone(bits[..|bits| - 1]); }
  }

  /** How many blocks bmap has to allocate for position `bn`, the indirect one counted. */
  function Missing(k: Book, i: int, bn: nat): nat
    requires 0 <= i < |k.nb|
  {
    if bn < k.nb[i] then 0 else if bn < NDIRECT || i in k.ind then 1 else 2
  }

  /** And inode_write, to reach up to `end`. */
  function Growth(k: Book, i: int, end: nat): nat
    requires 0 <= i < |k.nb|
  {
    var now := Max(k.nb[i], Needed(end));
    now - k.nb[i] + if now > NDIRECT && i !in k.ind then 1 else 0
  }

  /** One turn of the copy loop adds what its block misses, and no turn takes back. */
  lemma GrowthTurn(k: Book, l: Book, i: int, lo: nat, m: nat, end: nat)
    requires Reaches(k, l, i, lo) && Fits(l, i, lo) && 0 < m && lo % BLOCK_SIZE + m <= BLOCK_SIZE && lo + m <= end
    requires i in k.ind ==> i in l.ind
    ensures Growth(k, i, lo + m) == Growth(k, i, lo) + Missing(l, i, lo / BLOCK_SIZE) <= Growth(k, i, end)
  {
    OneBlock(lo, m);
    NeededMath(lo + m, end);
    hide Needed;
  }

  lemma GrowthNone(k: Book, i: int, lo: nat)
    requires Fits(k, i, lo)
    ensures Growth(k, i, lo) == 0
  {
  }

  lemma GrowthSettled(s: Snap, g: Geo, i: nat, end: nat)
    requires Settled(s.v, g, s.k) && InUse(s.v, g, i)
    ensures i < |s.k.nb| && Growth(s.k, i, end) == Added(s.v.tab[i].size, end)
  {
    hide Needed;
  }

  /** Where the copy loop stands after `total` bytes. */
  ghost predicate CopyState(s0: Snap, t: Snap, g: Geo, i: nat, off: nat, src: seq<byte>, total: nat, dd: set<nat>, bm: set<nat>) {
    && total <= |src| && i < |s0.k.nb| && Ready(s0, g, i, off)
    && Ready(t, g, i, off + total) && Copied(s0, t, g, i, off, src[..total], dd, bm) && |dd| <= Spanned(off, off + total)
    && (total == 0 ==> t == s0)
    && FreeBits(t.v.bits) + Growth(s0.k, i, off + total) == FreeBits(s0.v.bits)
    && (OneHeld(s0.k.nb[i], off, |src|) && total > 0 ==> Overwrote(s0, t, g, i, off, src[..total]))
  }

  lemma CopyStarts(s0: Snap, g: Geo, i: nat, off: nat, src: seq<byte>)
    requires Ready(s0, g, i, off) && off <= MAX_BLOCKS * BLOCK_SIZE
    ensures CopyState(s0, s0, g, i, off, src, 0, {}, {})
  {
    hide Ready, Copied, Spanned, FreeBits, Growth, Overwrote;
    CopiedNothing(s0, g, i, off);
    ReadyFits(s0, g, i, off);
    GrowthNone(s0.k, i, off);
    assert src[..0] == [];
  }

  lemma CopyEnds(s0: Snap, t: Snap, g: Geo, i: nat, off: nat, src: seq<byte>, dd: set<nat>, bm: set<nat>)
    requires CopyState(s0, t, g, i, off, src, |src|, dd, bm)
    ensures Copied(s0, t, g, i, off, src, dd, bm) && |dd| <= Spanned(off, off + |src|) && i < |s0.k.nb|
    ensures FreeBits(t.v.bits) + Growth(s0.k, i, off + |src|) == FreeBits(s0.v.bits)
    ensures OneHeld(s0.k.nb[i], off, |src|) ==> Overwrote(s0, t, g, i, off, src)
  {
    hide Ready, Copied, Spanned, FreeBits, Growth, Overwrote;
    assert src[..|src|] == src;
  }

  datatype WriteResult = Written(n: nat) | Refused | Panic

  class Fs {
    const g: Geo
    var vol: Vol             // bitmap, data blocks, inodes as cached in memory
    var slots: seq<Dinode>   // inodes as last logged to their disk slots
    var ref: seq<nat>        // reference counts of the in-memory inodes
    ghost var book: Book
    ghost var dirty: set<nat>  // disk blocks passed to log_write

    /** Mounting a volume: nothing is held and nothing logged. */
    constructor (g: Geo, v: Vol, ghost k: Book)
      ensures this.g == g && vol == v && slots == v.tab && book == k && dirty == {}
      ensures ref == Repeat(g.ninodes, 0)
    {
      this.g, vol, slots, ref, book, dirty := g, v, v.tab, Repeat(g.ninodes, 0), k, {};
    }

    ghost function Now(): Snap
      reads this
    {
      Snap(vol, book, dirty)
    }

    ghost function Disk(): Image
      reads this
    {
      Image(vol.bits, vol.data, slots, dirty)
    }

    /** balloc: scan the bitmap block by block.  0 stands for the panic. */
    method Balloc() returns (addr: nat)
      requires Shape(vol, g)
      modifies this`vol, this`dirty
      ensures addr == 0 ==> (forall c :: 0 <= c < g.nbits ==> old(vol).bits[c]) && vol == old(vol) && dirty == old(dirty)
      ensures addr != 0 ==> DataAddr(g, addr) && !old(vol).bits[addr - g.bd]
                            && (forall c :: 0 <= c < addr - g.bd ==> old(vol).bits[c])
                            && vol == Alloc(old(vol), addr - g.bd)
                            && dirty == old(dirty) + {BmOf(g, addr), addr}
      ensures addr == 0 <==> FreeBits(old(vol).bits) == 0
      ensures addr != 0 ==> FreeBits(vol.bits) + 1 == FreeBits(old(vol).bits)
      ensures Follows(g, old(Disk()), Disk())
    {
      hide Alloc, Follows, FreeBits, BmOf, Shape;
      ShapeFacts(vol, g);
      FollowsRefl(g, Disk());
      var left, blk := g.nbits, g.bmapStart;
      ghost var k := 0;
      while left > 0
        invariant vol == old(vol) && dirty == old(dirty)
        invariant 0 <= left <= g.nbits && blk == g.bmapStart + k
        invariant left > 0 ==> BITS_PER_BLOCK * k + left == g.nbits
        invariant forall c :: 0 <= c < g.nbits - left ==> vol.bits[c]
      {
        var n := if BITS_PER_BLOCK > left then left else BITS_PER_BLOCK;
        var first := g.nbits - left;
        var bit := FirstClear(first, n);
        if bit < n {
          BitPlace(k, bit);
          addr := g.bd + (blk - g.bmapStart) * BITS_PER_BLOCK + bit;
          assert addr - g.bd == first + bit;
          FreeBitsSet(vol.bits, first + bit);
          Claim(first + bit, blk);
          AllocBits(old(vol), first + bit);
          return;
        }
        left, blk, k := left - n, blk + 1, k + 1;
      }
      FreeBitsNone(vol.bits);
      return 0;
    }

    /** The loop over the bits of one bitmap block. */
    method FirstClear(first: nat, n: nat) returns (bit: nat)
      requires first + n <= |vol.bits|
      ensures bit <= n && (bit < n ==> !vol.bits[first + bit])
              && forall c :: first <= c < first + bit ==> vol.bits[c]
    {
      bit := 0;
      while bit < n && vol.bits[first + bit]
        invariant 0 <= bit <= n && forall c :: first <= c < first + bit ==> vol.bits[c]
      {
        bit := bit + 1;
      }
    }

    /** The found bit is set, and the data block cleared by bzero. */
    method Claim(b: nat, blk: nat)
      requires Shape(vol, g) && b < g.nbits && blk == g.bmapStart + b / BITS_PER_BLOCK
      modifies this`vol, this`dirty
      ensures vol == Alloc(old(vol), b) && dirty == old(dirty) + {BmOf(g, g.bd + b), g.bd + b}
      ensures Follows(g, old(Disk()), Disk())
    {
      hide ZeroBlock;
      vol := vol.(bits := vol.bits[b := true]);
      vol := vol.(data := vol.data[b := ZeroBlock()]);
      dirty := dirty + {blk, g.bd + b};
    }

    /** bfree, whose assertion is the second precondition. */
    method Bfree(addr: nat)
      requires DataAddr(g, addr) && |vol.bits| == g.nbits
      requires vol.bits[addr - g.bd]
      modifies this`vol, this`dirty
      ensures vol == old(vol).(bits := old(vol).bits[addr - g.bd := false])
      ensures dirty == old(dirty) + {BmOf(g, addr)}
      ensures Follows(g, old(Disk()), Disk())
    {
      var b := addr - g.bd;
      var blk := g.bmapStart + b / BITS_PER_BLOCK;
      vol := vol.(bits := vol.bits[b := false]);
      dirty := dirty + {blk};
    }

    method InodeUpdate(i: nat)
      requires i < |vol.tab| == |slots| == g.ninodes
      modifies this`slots, this`dirty
      ensures slots == old(slots)[i := vol.tab[i]] && dirty == old(dirty) + {InodeBlockNo(g, i)}
      ensures Follows(g, old(Disk()), Disk())
    {
      slots := slots[i := vol.tab[i]];
      dirty := dirty + {InodeBlockNo(g, i)};
    }

    /** Write the address of a fresh block where bmap records it. */
    method Record(i: nat, pos: nat, addr: uint32)
      requires Shape(vol, g) && i < |vol.tab| && pos <= INDIRECT
      requires NDIRECT <= pos < INDIRECT ==> DataAddr(g, vol.tab[i].addrs[NDIRECT])
      modifies this`vol, this`dirty
      ensures vol == Recorded(old(vol), g, i, pos, addr)
      ensures dirty <= old(dirty) + IndSet(vol.tab[i])
      ensures pos == INDIRECT || Touched(i, old(vol).tab, vol.tab)
      ensures old(vol).tab[i].addrs[NDIRECT] == 0 ==> Touched(i, old(vol).tab, vol.tab)
      ensures Follows(g, old(Disk()), Disk())
    {
      hide PutWord, Follows;
      FollowsRefl(g, Disk());
      if pos < NDIRECT {
        vol := vol.(tab := vol.tab[i := vol.tab[i].(addrs := vol.tab[i].addrs[pos := addr])]);
      } else if pos == INDIRECT {
        vol := vol.(tab := vol.tab[i := vol.tab[i].(addrs := vol.tab[i].addrs[NDIRECT := addr])]);
      } else {
        var c := vol.tab[i].addrs[NDIRECT] - g.bd;
        DataFollows(g, Disk(), c, PutWord(vol.data[c], pos - NDIRECT, addr));
        vol := vol.(data := vol.data[c := PutWord(vol.data[c], pos - NDIRECT, addr)]);
        dirty := dirty + {vol.tab[i].addrs[NDIRECT]};
      }
    }

    /** Allocate a block and attach it at `pos`. */
    method AttachBlock(i: nat, pos: nat) returns (addr: nat)
      requires Owned(vol, g, book) && InUse(vol, g, i) && pos <= INDIRECT && NextFree(book, i, pos)
      modifies this`vol, this`dirty, this`book
      ensures addr != 0 ==> Extended(old(Now()), Now(), g, i, pos, addr)
      ensures addr == 0 <==> FreeBits(old(vol).bits) == 0
      ensures addr != 0 ==> FreeBits(vol.bits) + 1 == FreeBits(old(vol).bits)
      ensures Follows(g, old(Disk()), Disk())
    {
      hide Owned, Extended, Recorded, Alloc, Touched, Follows, Attach, BmOf, FreeBits;
      ghost var (s, d0) := (Now(), Disk());
      OwnedSizes(s, g);
      IndirectOwner(vol, g, book, i);
      if i !in book.ind { NoIndirect(vol, g, book, i); }
      addr := Balloc();
      if addr != 0 {
        AllocFacts(s.v, g, addr - g.bd);
        ghost var d1 := Disk();
        RecordedBits(vol, g, i, pos, addr);
        Record(i, pos, addr);
        FollowsTrans(g, d0, d1, Disk());
        book := Attach(book, addr - g.bd, i, pos);
        ExtendedBy(s, g, i, pos, addr, Now());
      }
    }

    /** bmap.  Positions are filled in order, so `bn` is at most the number of
        blocks the file has; an existing position costs no write at all. */
    method Bmap(i: nat, bn: nat) returns (addr: nat, ghost bm: set<nat>)
      requires Owned(vol, g, book) && InUse(vol, g, i) && bn < MAX_BLOCKS && bn <= book.nb[i]
      modifies this`vol, this`dirty, this`book
      ensures addr != 0 ==> Mapped(old(Now()), Now(), g, i, bn, addr, bm)
      ensures bn < old(book).nb[i] ==> addr != 0 && Now() == old(Now())
      ensures addr == 0 <==> FreeBits(old(vol).bits) < Missing(old(book), i, bn)
      ensures addr != 0 ==> FreeBits(vol.bits) + Missing(old(book), i, bn) == FreeBits(old(vol).bits)
      ensures Follows(g, old(Disk()), Disk())
    {
      ghost var s := Now();
      Lookup(s, g, i, bn);
      FollowsRefl(g, Disk());
      hide Owned, Mapped, Extended, Word, Follows, FreeBits;
      bm := {};
      if bn < NDIRECT {
        addr := vol.tab[i].addrs[bn];
        if addr == 0 {
          addr := AttachBlock(i, bn);
          if addr != 0 {
            ExtendedMaps(s, Now(), g, i, bn, addr);
            bm := {BmOf(g, addr)};
          }
        }
      } else if vol.tab[i].addrs[NDIRECT] == 0 {
        addr, bm := MapFirstIndirect(i);
      } else {
        addr := Word(vol.data[vol.tab[i].addrs[NDIRECT] - g.bd], bn - NDIRECT);
        if addr == 0 {
          addr := AttachBlock(i, bn);
          if addr != 0 {
            ExtendedMaps(s, Now(), g, i, bn, addr);
            bm := {BmOf(g, addr)};
          }
        }
      }
    }

    /** bmap for the first block behind the direct ones: the indirect block is
        allocated, found to hold no address, and the data block entered in it. */
    method MapFirstIndirect(i: nat) returns (addr: nat, ghost bm: set<nat>)
      requires Owned(vol, g, book) && InUse(vol, g, i) && NextFree(book, i, INDIRECT) && book.nb[i] == NDIRECT
      modifies this`vol, this`dirty, this`book
      ensures addr != 0 ==> Mapped(old(Now()), Now(), g, i, NDIRECT, addr, bm)
      ensures addr == 0 <==> FreeBits(old(vol).bits) < 2
      ensures addr != 0 ==> FreeBits(vol.bits) + 2 == FreeBits(old(vol).bits)
      ensures Follows(g, old(Disk()), Disk())
    {
      ghost var (s, d0) := (Now(), Disk());
      hide Owned, Mapped, Extended, Word, Follows, FreeBits;
      var ind := AttachBlock(i, INDIRECT);
      if ind == 0 {
        return 0, {};
      }
      ghost var t := Now();
      ExtendedFacts(s, t, g, i);
      Lookup(t, g, i, NDIRECT);
      addr := Word(vol.data[vol.tab[i].addrs[NDIRECT] - g.bd], 0);
      assert addr == 0;
      ghost var d1 := Disk();
      addr := AttachBlock(i, NDIRECT);
      FollowsTrans(g, d0, d1, Disk());
      if addr != 0 { ExtendedTwice(s, t, Now(), g, i, ind, addr); }
      bm := {BmOf(g, ind)} + {BmOf(g, addr)};
    }

    /** One turn of the copy loop of inode_write. */
    method WriteBlock(i: nat, lo: nat, bytes: seq<byte>)
      returns (addr: nat, ghost dd: set<nat>, ghost bm: set<nat>)
      requires Ready(Now(), g, i, lo) && lo / BLOCK_SIZE < MAX_BLOCKS
      requires 0 < |bytes| && lo % BLOCK_SIZE + |bytes| <= BLOCK_SIZE
      modifies this`vol, this`dirty, this`book
      ensures addr != 0 ==> Copied(old(Now()), Now(), g, i, lo, bytes, dd, bm) && |dd| == 1
      ensures addr == 0 ==> old(book).nb[i] <= lo / BLOCK_SIZE
      ensures i < |old(book).nb| && (addr == 0 <==> FreeBits(old(vol).bits) < Missing(old(book), i, lo / BLOCK_SIZE))
      ensures addr != 0 ==> FreeBits(vol.bits) + Missing(old(book), i, lo / BLOCK_SIZE) == FreeBits(old(vol).bits)
      ensures lo / BLOCK_SIZE < old(book).nb[i] ==> Overwrote(old(Now()), Now(), g, i, lo, bytes)
      ensures Follows(g, old(Disk()), Disk())
    {
      hide Owned, Patch, Needed, Mapped, Copied, Follows, FreeBits, Missing;
      OwnedSizes(Now(), g);
      ghost var (s, d0) := (Now(), Disk());
      OneBlock(lo, |bytes|);
      addr, bm := Bmap(i, lo / BLOCK_SIZE);
      dd := {addr};
      if addr == 0 { return; }
      MappedAddr(s, Now(), g, i, lo / BLOCK_SIZE, addr, bm);
      MappedStore(s, Now(), g, i, lo, bytes, addr, bm);
      var b := addr - g.bd;
      ghost var d1 := Disk();
      DataFollows(g, d1, b, Patch(vol.data[b], lo % BLOCK_SIZE, bytes));
      vol := vol.(data := vol.data[b := Patch(vol.data[b], lo % BLOCK_SIZE, bytes)]);
      dirty := dirty + {addr};
      FollowsTrans(g, d0, d1, Disk());
    }

    /** The copy loop of inode_write. */
    method CopyIn(i: nat, src: seq<byte>, off: nat) returns (ok: bool, ghost dd: set<nat>, ghost bm: set<nat>)
      requires Ready(Now(), g, i, off) && off + |src| <= MAX_BLOCKS * BLOCK_SIZE
      modifies this`vol, this`dirty, this`book
      ensures ok ==> Copied(old(Now()), Now(), g, i, off, src, dd, bm)
      ensures ok ==> |dd| <= Spanned(off, off + |src|)
      ensures i < |old(book).nb| && (ok <==> FreeBits(old(vol).bits) >= Growth(old(book), i, off + |src|))
      ensures ok ==> FreeBits(vol.bits) + Growth(old(book), i, off + |src|) == FreeBits(old(vol).bits)
      ensures ok && OneHeld(old(book).nb[i], off, |src|) ==> Overwrote(old(Now()), Now(), g, i, off, src)
      ensures Follows(g, old(Disk()), Disk())
    {
      hide Ready, Copied, Spanned, Follows, Overwrote, FreeBits, Growth, CopyState, OneHeld;
      ghost var (s0, d0) := (Now(), Disk());
      FollowsRefl(g, d0);
      var total, o := 0, off;
      dd, bm := {}, {};
      CopyStarts(s0, g, i, off, src);
      while total < |src|
        invariant 0 <= total <= |src| && o == off + total
        invariant o == off || o % BLOCK_SIZE == 0 || total == |src|
        invariant CopyState(s0, Now(), g, i, off, src, total, dd, bm) && Follows(g, d0, Disk())
      {
        var m := BLOCK_SIZE - o % BLOCK_SIZE;
        if m > |src| - total {
          m := |src| - total;
        }
        TurnMath(off, o, m);
        ghost var i1 := Disk();
        var addr;
        addr, dd, bm := CopyTurn(i, src, off, total, m, s0, dd, bm);
        FollowsTrans(g, d0, i1, Disk());
        if addr == 0 {
          return false, {}, {};
        }
        total, o := total + m, o + m;
      }
      CopyEnds(s0, Now(), g, i, off, src, dd, bm);
      ok := true;
    }

    /** One turn of it, in terms of what has been copied so far. */
    method CopyTurn(i: nat, src: seq<byte>, off: nat, total: nat, m: nat, ghost s0: Snap, ghost dd: set<nat>, ghost bm: set<nat>)
      returns (addr: nat, ghost dd': set<nat>, ghost bm': set<nat>)
      requires CopyState(s0, Now(), g, i, off, src, total, dd, bm) && off + |src| <= MAX_BLOCKS * BLOCK_SIZE
      requires 0 < m <= BLOCK_SIZE - (off + total) % BLOCK_SIZE && total + m <= |src|
      requires total == 0 || (off + total) % BLOCK_SIZE == 0
      modifies this`vol, this`dirty, this`book
      ensures i < |s0.k.nb| && (addr == 0 ==> FreeBits(s0.v.bits) < Growth(s0.k, i, off + |src|))
      ensures addr != 0 ==> CopyState(s0, Now(), g, i, off, src, total + m, dd', bm')
      ensures Follows(g, old(Disk()), Disk())
    {
      hide Ready, Copied, Spanned, Needed, Follows, Overwrote, FreeBits, Growth, Missing, Reaches;
      ghost var s1 := Now();
      var o := off + total;
      TurnMath(off, o, m);
      CopiedReaches(s0, s1, g, i, off, src[..total], dd, bm);
      ReadyFits(s1, g, i, o);
      GrowthTurn(s0.k, s1.k, i, o, m, off + |src|);
      ghost var d1, b1;
      addr, d1, b1 := WriteBlock(i, o, src[total..total + m]);
      dd', bm' := dd + d1, bm + b1;
      if addr != 0 {
        CopiedTurn(s0, s1, Now(), g, i, off, src, total, m, dd, bm, d1, b1);
        assert total == 0 ==> src[total..total + m] == src[..total + m];
      }
    }

    /** Between operations: ownership, no holes, and the cached inodes equal
        their logged slots. */
    ghost predicate Valid()
      reads this
    {
      Owned(vol, g, book) && Settled(vol, g, book) && slots == vol.tab
    }

    /** inode_write on a file or directory. */
    method InodeWrite(i: nat, src: seq<byte>, off: uint32) returns (r: WriteResult)
      requires Valid() && InUse(vol, g, i) && vol.tab[i].typ != DEVICE && |src| < 0x1_0000_0000
      modifies this`vol, this`slots, this`dirty, this`book
      ensures r == Refused <==> off > old(vol).tab[i].size || off + |src| > MAX_BLOCKS * BLOCK_SIZE
      ensures r == Refused ==> Valid() && vol == old(vol) && dirty == old(dirty) && book == old(book)
      ensures r.Written? ==> r.n == |src| && Valid() && Spliced(old(vol), vol, g, i, off, src)
      ensures r.Written? ==> Grows(old(dirty), dirty, {InodeBlockNo(g, i)}, Cost(old(vol).tab[i].size, off, |src|))
      ensures r.Written? && |src| <= 3 * BLOCK_SIZE ==> |dirty - old(dirty)| <= 10
      ensures r.Written? && 0 < |src| && off % BLOCK_SIZE + |src| <= BLOCK_SIZE && off + |src| <= old(vol).tab[i].size ==>
                Overwrote(old(Now()), Now(), g, i, off, src)
      ensures r.Panic? <==> off <= old(vol).tab[i].size && off + |src| <= MAX_BLOCKS * BLOCK_SIZE
                            && FreeBits(old(vol).bits) < Added(old(vol).tab[i].size, off + |src|)
      ensures r.Written? ==> FreeBits(vol.bits) + Added(old(vol).tab[i].size, off + |src|) == FreeBits(old(vol).bits)
      ensures Follows(g, old(Disk()), Disk())
    {
      hide Owned, Settled, Copied, Spliced, Spanned, Needed, Fits, Follows, Grows, Cost, Overwrote, FreeBits, Growth, Added;
      ghost var (s, d0) := (Now(), Disk());
      FollowsRefl(g, d0);
      SizeBound(vol, g, book, i);
      OwnedSizes(s, g);
      if off > vol.tab[i].size || (off + |src|) % 0x1_0000_0000 < off {
        return Refused;
      }
      if off + |src| > MAX_BLOCKS * BLOCK_SIZE {
        return Refused;
      }
      ReadyAt(s, g, i, off);
      SettledSize(s, g, i);
      HeldInside(s.k.nb[i], off, |src|, s.v.tab[i].size);
      GrowthSettled(s, g, i, off + |src|);
      var ok, dd, bm := CopyIn(i, src, off);
      if !ok {
        return Panic;
      }
      WriteDone(s, Now(), g, i, off, src, dd, bm);
      CopiedCost(s, Now(), g, i, off, src, dd, bm, InodeBlockNo(g, i));
      CopiedTab(s, Now(), g, i, off, src, dd, bm);
      if off + |src| <= s.v.tab[i].size { NoGrowth(s, Now(), g, i, off, src, dd, bm); }
      ghost var d1 := Disk();
      FinishWrite(i, off + |src|, |src|);
      FollowsTrans(g, d0, d1, Disk());
      GrowsTotal(s.dirty, dirty, {InodeBlockNo(g, i)}, Cost(s.v.tab[i].size, off, |src|));
      if |src| <= 3 * BLOCK_SIZE { TenBlocks(s.v.tab[i].size, off, |src|); }
      r := Written(|src|);
    }

    /** The end of inode_write: record a larger size and log the inode. */
    method FinishWrite(i: nat, end: nat, n: nat)
      requires i < |vol.tab| == |slots| == g.ninodes
      modifies this`vol, this`slots, this`dirty
      ensures n > 0 && end > old(vol).tab[i].size ==>
                vol == SetSize(old(vol), i, end) && slots == old(slots)[i := vol.tab[i]]
                && dirty == old(dirty) + {InodeBlockNo(g, i)}
      ensures !(n > 0 && end > old(vol).tab[i].size) ==> vol == old(vol) && slots == old(slots) && dirty == old(dirty)
      ensures Follows(g, old(Disk()), Disk())
    {
      if n > 0 && end > vol.tab[i].size {
        vol := vol.(tab := vol.tab[i := vol.tab[i].(size := end)]);
        InodeUpdate(i);
      }
    }
  }
}
