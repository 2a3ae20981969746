/** The ten blocks that an operation of the log reserves, and the release of a file,
    which may need more: one bitmap block for each block that becomes free. */
module Reservation {
  import opened Blocks
  import opened Common
  import opened Volume
  import opened FileSystem
  import opened InodeLife
  import opened Directory
  import opened DirectoryCode
  import Tree
  import opened Namei
  import opened FsCalls
  import opened FsOps
  import opened Images
  import opened Mkfs
  import Layout
  import P = LogProtocol

  // ------------------------------------------------------------------
  // At most as many bitmap blocks as there are
  // ------------------------------------------------------------------

  /** The block numbers from `lo` on. */
  function Range(lo: nat, n: nat): (r: set<nat>)
    ensures |r| == n && forall x :: x in r <==> lo <= x < lo + n
  {
    if n == 0 then {} else Range(lo, n - 1) + {lo + n - 1}
  }

  function BitmapBlocks(g: Geo): nat { (g.nbits + BITS_PER_BLOCK - 1) / BITS_PER_BLOCK }

  lemma BitmapsInRange(v: Vol, g: Geo, k: Book, x: nat)
    requires Owned(v, g, k) && InUse(v, g, x)
    ensures BitmapsOf(v, g, x, INDIRECT + 1) <= Range(g.bmapStart, BitmapBlocks(g))
  {
    hide Addr, Range;
    forall b | b in BitmapsOf(v, g, x, INDIRECT + 1) ensures b in Range(g.bmapStart, BitmapBlocks(g)) {
      var pos :| 0 <= pos <= INDIRECT && Addr(v, g, x, pos) != 0 && BmOf(g, Addr(v, g, x, pos)) == b;
      assert PosOk(v, g, k, x, pos);
      BitRange(g.nbits, Addr(v, g, x, pos) - g.bd);
    }
  }

  /** A release logs at most the bitmap, the indirect block and the inode. */
  lemma ReleaseBound(v: Vol, g: Geo, x: nat)
    requires Healthy(v, g) && InUse(v, g, x)
    ensures Shape(v, g) && |ReleaseSet(v, g, x)| <= BitmapBlocks(g) + 2
  {
    hide Owned, Settled, Range, BitmapsOf, World, BitmapBlocks;
    var k :| Owned(v, g, k) && Settled(v, g, k);
    OwnedSizes(Snap(v, k, {}), g);
    BitmapsInRange(v, g, k, x);
    var r := Range(g.bmapStart, BitmapBlocks(g));
    var all := r + IndSet(v.tab[x]) + {InodeBlockNo(g, x)};
    assert |all| <= |r| + |IndSet(v.tab[x])| + 1;
    SubsetSize(ReleaseSet(v, g, x), all);
  }

  /** And removing an entry its block as well, and for a directory the parent's inode. */
  lemma UnlinkBound(v: Vol, g: Geo, d: nat, k: nat, x: nat, last: bool)
    requires Healthy(v, g) && InUse(v, g, x) && Inum(g, d) && k / 8 < MAX_BLOCKS
    ensures Shape(v, g) && |UnlinkSet(v, g, d, k, x, last)| <= BitmapBlocks(g) + if v.tab[x].typ == DIRECTORY then 4 else 3
  {
    hide Healthy, ReleaseSet, Addr, BitmapBlocks;
    ReleaseBound(v, g, x);
    var entry := {Addr(v, g, d, k / 8)};
    var more := if v.tab[x].typ == DIRECTORY then {InodeBlockNo(g, d)} else {};
    var all := ReleaseSet(v, g, x) + entry + more;
    assert |all| <= |ReleaseSet(v, g, x)| + |entry| + |more|;
    assert InodeBlockNo(g, x) in ReleaseSet(v, g, x) by { OwnSlot(v, g, x); }
    SubsetSize(UnlinkSet(v, g, d, k, x, last), all);
  }

  lemma OwnSlot(v: Vol, g: Geo, x: nat)
    requires Shape(v, g) && Inum(g, x)
    ensures InodeBlockNo(g, x) in ReleaseSet(v, g, x)
  {
    hide BitmapsOf;
  }

  // ------------------------------------------------------------------
  // A file spread over the bitmap
  // ------------------------------------------------------------------

  const FIRST: Name := [97]

  /** Positions that the file uses: all direct ones, the first behind them, and the
      indirect block. */
  predicate Uses(pos: int) { 0 <= pos <= NDIRECT || pos == INDIRECT }

  /** The bit of the block at `pos`: the first `m` blocks of the file lie in `m` bitmap
      blocks, the others anywhere in the first. */
  function Place(m: nat, pos: int): nat
    requires 1 <= m && 0 <= pos
  {
    if pos < m - 1 then BITS_PER_BLOCK * pos + 1
    else if pos == m - 1 then BITS_PER_BLOCK * (m - 1)
    else 100 + pos
  }

  predicate Wide(g: Geo, m: nat) {
    && Roomy(g) && g.ninodes >= 3 && 2 <= m <= NDIRECT && g.nbits > BITS_PER_BLOCK * (m - 1)
  }

  lemma PlaceFits(g: Geo, m: nat, pos: int)
    requires Wide(g, m) && Uses(pos)
    ensures 0 < Place(m, pos) < g.nbits
  {
  }

  lemma PlaceOnce(m: nat, p: int, q: int)
    requires 2 <= m <= NDIRECT && Uses(p) && Uses(q) && Place(m, p) == Place(m, q)
    ensures p == q
  {
  }

  ghost function SpreadOwner(m: nat): (o: map<int, Owner>)
    requires 2 <= m <= NDIRECT
    ensures forall pos :: Uses(pos) ==> Place(m, pos) in o && o[Place(m, pos)] == Owner(2, pos)
    ensures forall b :: b in o ==> Uses(o[b].pos) && o[b].inum == 2 && Place(m, o[b].pos) == b
  {
    forall p, q | Uses(p) && Uses(q) && Place(m, p) == Place(m, q) ensures p == q { PlaceOnce(m, p, q); }
    map pos | 0 <= pos <= INDIRECT && Uses(pos) :: Place(m, pos) := Owner(2, pos)
  }

  ghost function SpreadBook(g: Geo, m: nat): Book
    requires Wide(g, m)
  {
    Book(SpreadOwner(m)[0 := Owner(Tree.ROOT, 0)], Repeat(g.ninodes, 0)[Tree.ROOT := 1][2 := NDIRECT + 1], {2})
  }

  function SpreadAddrs(g: Geo, m: nat, n: nat): (a: seq<uint32>)
    requires Wide(g, m) && n <= NDIRECT
    ensures |a| == n && forall p :: 0 <= p < n ==> a[p] == g.bd + Place(m, p)
  {
    if n == 0 then [] else
    PlaceFits(g, m, n - 1);
    SpreadAddrs(g, m, n - 1) + [g.bd + Place(m, n - 1)]
  }

  function SpreadInode(g: Geo, m: nat, nlink: nat): Dinode
    requires Wide(g, m)
  {
    PlaceFits(g, m, INDIRECT);
    Dinode(FILE, nlink, (NDIRECT + 1) * BLOCK_SIZE, 0, 0, SpreadAddrs(g, m, NDIRECT) + [g.bd + Place(m, INDIRECT)])
  }

  /** The root directory with a third entry. */
  function ThirdEntry(e: seq<byte>): Block
    requires |e| == DIRENT
  {
    Patch(RootBlock(Zeros(), Zeros()), 2 * DIRENT, e)
  }

  function Entry(linked: bool): (e: seq<byte>)
    ensures |e| == DIRENT
  {
    if linked then Encode(2, FIRST, Zeros()) else Zeros()
  }

  /** A volume with one file, linked in the root directory or still open after its entry
      has been removed. */
  ghost function Spread(g: Geo, m: nat, linked: bool): (v: Vol)
    requires Wide(g, m)
    ensures Shape(v, g)
  {
    PlaceFits(g, m, INDIRECT);
    PlaceFits(g, m, NDIRECT);
    var o := SpreadOwner(m);
    Vol(seq(g.nbits, b requires 0 <= b < g.nbits => b == 0 || b in o),
        Repeat(g.nbits, ZeroBlock())[0 := ThirdEntry(Entry(linked))]
        [Place(m, INDIRECT) := PutWord(ZeroBlock(), 0, g.bd + Place(m, NDIRECT))],
        Repeat(g.ninodes, FreshInode(NONE))[Tree.ROOT := RootInode(g).(size := 3 * DIRENT)]
        [2 := SpreadInode(g, m, if linked then 1 else 0)])
  }

  lemma SpreadAddr(g: Geo, m: nat, linked: bool, pos: int)
    requires Wide(g, m) && 0 <= pos <= INDIRECT
    ensures Addr(Spread(g, m, linked), g, 2, pos) == if Uses(pos) then g.bd + Place(m, pos) else 0
  {
    hide Blocks.Word, PutWord, ZeroBlock, ThirdEntry, SpreadOwner, Repeat, SpreadAddrs;
    var v := Spread(g, m, linked);
    PlaceFits(g, m, INDIRECT);
    assert v.tab[2] == SpreadInode(g, m, if linked then 1 else 0);
    if NDIRECT <= pos < INDIRECT {
      assert v.data[Place(m, INDIRECT)] == PutWord(ZeroBlock(), 0, g.bd + Place(m, NDIRECT));
    }
  }

  lemma SpreadRootAddr(g: Geo, m: nat, linked: bool, pos: int)
    requires Wide(g, m) && 0 <= pos <= INDIRECT
    ensures Addr(Spread(g, m, linked), g, Tree.ROOT, pos) == if pos == 0 then g.bd else 0
  {
    hide Blocks.Word, PutWord, ZeroBlock, ThirdEntry, SpreadOwner, SpreadInode, Place;
    var v := Spread(g, m, linked);
    assert v.tab[Tree.ROOT] == RootInode(g).(size := 3 * DIRENT);
  }

  lemma SpreadInUse(g: Geo, m: nat, linked: bool, i: int)
    requires Wide(g, m)
    ensures InUse(Spread(g, m, linked), g, i) <==> i == Tree.ROOT || i == 2
  {
    hide PutWord, ZeroBlock, ThirdEntry, SpreadOwner, SpreadAddrs, Place;
  }

  lemma SpreadPos(g: Geo, m: nat, linked: bool, i: int, pos: int)
    requires Wide(g, m) && (i == Tree.ROOT || i == 2) && 0 <= pos <= INDIRECT
    ensures PosOk(Spread(g, m, linked), g, SpreadBook(g, m), i, pos)
  {
    hide Spread, Addr, Place, SpreadOwner;
    if Uses(pos) { PlaceFits(g, m, pos); }
    if i == 2 { SpreadAddr(g, m, linked, pos); } else { SpreadRootAddr(g, m, linked, pos); }
  }

  lemma SpreadBit(g: Geo, m: nat, linked: bool, b: int)
    requires Wide(g, m) && b in SpreadBook(g, m).owner
    ensures BitOk(Spread(g, m, linked), g, SpreadBook(g, m), b)
  {
    SpreadInUse(g, m, linked, Tree.ROOT);
    SpreadInUse(g, m, linked, 2);
    SpreadBits(g, m, linked);
    hide Spread, Addr, Place, SpreadOwner;
    var o := SpreadBook(g, m).owner[b];
    if b == 0 {
      SpreadRootAddr(g, m, linked, 0);
    } else {
      PlaceFits(g, m, o.pos);
      SpreadAddr(g, m, linked, o.pos);
    }
  }

  lemma SpreadBits(g: Geo, m: nat, linked: bool)
    requires Wide(g, m)
    ensures forall b :: 0 <= b < g.nbits ==> (Spread(g, m, linked).bits[b] <==> b in SpreadBook(g, m).owner)
  {
    hide Place, SpreadOwner, ThirdEntry, SpreadInode, PutWord, ZeroBlock;
  }

  lemma SpreadOwned(g: Geo, m: nat, linked: bool)
    requires Wide(g, m)
    ensures Owned(Spread(g, m, linked), g, SpreadBook(g, m)) && Settled(Spread(g, m, linked), g, SpreadBook(g, m))
  {
    hide Spread, Addr, Place, SpreadOwner, SpreadAddrs, PosOk, BitOk;
    var v, k := Spread(g, m, linked), SpreadBook(g, m);
    SpreadTab(g, m, linked);
    assert k.nb[2] == NDIRECT + 1 && k.nb[Tree.ROOT] == 1 && k.ind == {2};
    SpreadBits(g, m, linked);
    forall i ensures InUse(v, g, i) <==> i == Tree.ROOT || i == 2 { SpreadInUse(g, m, linked, i); }
    forall i, pos | InUse(v, g, i) && 0 <= pos <= INDIRECT ensures PosOk(v, g, k, i, pos) { SpreadPos(g, m, linked, i, pos); }
    forall b | b in k.owner ensures BitOk(v, g, k, b) { SpreadBit(g, m, linked, b); }
  }

  // ------------------------------------------------------------------
  // It is healthy
  // ------------------------------------------------------------------

  function SpreadSlots(linked: bool): seq<Slot> {
    Tree.Dots(Tree.ROOT, Tree.ROOT) + [if linked then Slot(2, FIRST) else FREE]
  }

  lemma EntryDecodes(linked: bool)
    ensures Decode(Entry(linked)) == SpreadSlots(linked)[2]
  {
    hide Decode, Encode, Zeros;
    DecodeEncode(2, FIRST, Zeros());
  }

  lemma ThirdEntryIs(e: seq<byte>)
    requires |e| == DIRENT
    ensures ThirdEntry(e)[..3 * DIRENT][..DIRENT] == RootEntry(DOT, Zeros())
    ensures ThirdEntry(e)[..3 * DIRENT][DIRENT..2 * DIRENT] == RootEntry(DOTDOT, Zeros())
    ensures ThirdEntry(e)[..3 * DIRENT][2 * DIRENT..3 * DIRENT] == e
  {
    hide RootEntry, Patch, Zeros, RootBlock;
    var r, b := RootBlock(Zeros(), Zeros()), ThirdEntry(e);
    RootBlockIs(Zeros(), Zeros());
    var c := b[..3 * DIRENT];
    assert c[..DIRENT] == r[..DIRENT] && c[DIRENT..2 * DIRENT] == r[DIRENT..2 * DIRENT] && c[2 * DIRENT..3 * DIRENT] == e;
  }

  lemma SpreadRootBytes(g: Geo, m: nat, linked: bool, x: int)
    requires Wide(g, m) && 0 <= x < 3 * DIRENT
    ensures Byte(Spread(g, m, linked), g, Tree.ROOT, x) == ThirdEntry(Entry(linked))[x]
  {
    hide Spread, Addr, ThirdEntry, Entry;
    SpreadRootAddr(g, m, linked, 0);
    SpreadData(g, m, linked);
  }

  lemma SpreadData(g: Geo, m: nat, linked: bool)
    requires Wide(g, m)
    ensures Spread(g, m, linked).data[0] == ThirdEntry(Entry(linked))
  {
    hide ThirdEntry, PutWord, ZeroBlock, SpreadOwner, SpreadInode, Place, Entry, Shape;
    PlaceFits(g, m, INDIRECT);
  }

  lemma SpreadTab(g: Geo, m: nat, linked: bool)
    requires Wide(g, m)
    ensures var v := Spread(g, m, linked);
            v.tab[Tree.ROOT] == RootInode(g).(size := 3 * DIRENT) && v.tab[2] == SpreadInode(g, m, if linked then 1 else 0)
  {
    hide ThirdEntry, PutWord, ZeroBlock, SpreadOwner, SpreadInode, Place, Entry, Shape;
  }

  lemma SpreadRoot(g: Geo, m: nat, linked: bool)
    requires Wide(g, m)
    ensures var v := Spread(g, m, linked);
            v.tab[Tree.ROOT] == RootInode(g).(size := 3 * DIRENT) && Slots(Contents(v, g, Tree.ROOT)) == SpreadSlots(linked)
  {
    hide Spread, Byte, ThirdEntry, Decode, Entry, RootEntry, Zeros, SpreadInode;
    var v := Spread(g, m, linked);
    SpreadTab(g, m, linked);
    var c, b := Contents(v, g, Tree.ROOT), ThirdEntry(Entry(linked));
    forall x | 0 <= x < 3 * DIRENT ensures c[x] == b[x] { SpreadRootBytes(g, m, linked, x); }
    assert c == b[..3 * DIRENT];
    ThirdEntryIs(Entry(linked));
    RootDecodes(Zeros(), Zeros());
    EntryDecodes(linked);
    ThreeSlots(c, RootEntry(DOT, Zeros()), RootEntry(DOTDOT, Zeros()), Entry(linked));
  }

  lemma ThreeSlots(c: seq<byte>, e1: seq<byte>, e2: seq<byte>, e3: seq<byte>)
    requires |c| == 3 * DIRENT && |e1| == |e2| == |e3| == DIRENT
    requires c[..DIRENT] == e1 && c[DIRENT..2 * DIRENT] == e2 && c[2 * DIRENT..3 * DIRENT] == e3
    ensures Slots(c) == [Decode(e1), Decode(e2), Decode(e3)]
  {
    hide Decode;
    assert c[0..DIRENT] == e1;
    var s := Slots(c);
    assert s[0] == Decode(e1) && s[1] == Decode(e2) && s[2] == Decode(e3);
  }

  /** Its tree: the file made, and its entry removed again. */
  ghost function SpreadTree(n: nat, linked: bool): Tree.Nodes
    requires n >= 3
  {
    var t := Tree.Fresh(n)[Tree.ROOT := Tree.Node(DIRECTORY, 2, SpreadSlots(linked))];
    t[2 := Tree.Node(FILE, if linked then 1 else 0, [])]
  }

  lemma SpreadTreeOk(n: nat, linked: bool)
    requires n >= 3
    ensures Tree.Ok(SpreadTree(n, linked))
  {
    hide Tree.Ok, Find, FirstFree;
    var t := Tree.Fresh(n);
    Tree.FreshOk(n);
    Tree.DotsFull(Tree.ROOT, Tree.ROOT, Slot(2, FIRST));
    Tree.CreateKeeps(t, Tree.ROOT, FIRST, 2, FILE);
    var u := Tree.Create(t, Tree.ROOT, FIRST, 2, FILE);
    assert u == SpreadTree(n, true);
    if !linked {
      Tree.UnlinkKeeps(u, Tree.ROOT, 2);
      var w, e := Tree.Unlink(u, Tree.ROOT, 2), SpreadTree(n, false);
      assert w[Tree.ROOT].slots == e[Tree.ROOT].slots;
      assert forall i :: 0 <= i < n ==> w[i] == e[i];
      assert w == e;
    }
  }

  lemma SpreadAbs(g: Geo, m: nat, linked: bool)
    requires Wide(g, m)
    ensures Abs(Spread(g, m, linked), g) == SpreadTree(g.ninodes, linked)
  {
    SpreadRoot(g, m, linked);
    hide Contents, Slots, PutWord, ZeroBlock, ThirdEntry, SpreadOwner, Place, SpreadAddrs;
    var v, t := Spread(g, m, linked), SpreadTree(g.ninodes, linked);
    forall i | 0 <= i < g.ninodes ensures Abs(v, g)[i] == t[i] { assert Abs(v, g)[i] == NodeOf(v, g, i); }
  }

  lemma SpreadFields(g: Geo, m: nat, linked: bool)
    requires Wide(g, m)
    ensures DirSizes(Spread(g, m, linked), g) && FieldsOk(Spread(g, m, linked))
  {
    hide PutWord, ZeroBlock, ThirdEntry, SpreadOwner, Place, SpreadAddrs;
  }

  lemma SpreadIsHealthy(g: Geo, m: nat, linked: bool)
    requires Wide(g, m)
    ensures Healthy(Spread(g, m, linked), g)
  {
    hide Spread, Owned, Settled, Tree.Ok, DirSizes, FieldsOk, SpreadTree, Abs;
    SpreadOwned(g, m, linked);
    SpreadAbs(g, m, linked);
    SpreadTreeOk(g.ninodes, linked);
    SpreadFields(g, m, linked);
  }

  // ------------------------------------------------------------------
  // What its release logs
  // ------------------------------------------------------------------

  lemma PlaceBlock(g: Geo, m: nat, pos: nat)
    requires Wide(g, m) && pos < m
    ensures BmOf(g, g.bd + Place(m, pos)) == g.bmapStart + pos
  {
    if pos < m - 1 { BitPlace(pos, 1); } else { BitPlace(pos, 0); }
  }

  lemma SpreadBitmaps(g: Geo, m: nat, linked: bool)
    requires Wide(g, m)
    ensures Range(g.bmapStart, m) <= BitmapsOf(Spread(g, m, linked), g, 2, INDIRECT + 1)
  {
    hide Spread, Addr, Place, BmOf, Range;
    forall b | b in Range(g.bmapStart, m) ensures b in BitmapsOf(Spread(g, m, linked), g, 2, INDIRECT + 1) {
      var pos := b - g.bmapStart;
      PlaceBlock(g, m, pos);
      PlaceFits(g, m, pos);
      SpreadAddr(g, m, linked, pos);
    }
  }

  /** Bitmap, indirect block and inode lie apart. */
  lemma SpreadLogs(g: Geo, ls: nat, n: nat, m: nat, linked: bool)
    requires Wide(g, m) && Laid(g, ls, n)
    ensures var a := g.bd + Place(m, INDIRECT);
            Range(g.bmapStart, m) + {a, InodeBlockNo(g, 2)} <= ReleaseSet(Spread(g, m, linked), g, 2)
    ensures |Range(g.bmapStart, m) + {g.bd + Place(m, INDIRECT), InodeBlockNo(g, 2)}| == m + 2
    ensures g.bmapStart + m <= g.bd && InodeBlockNo(g, 2) < g.bmapStart
  {
    hide Spread, Range, BitmapsOf, Place, Laid, SpreadAddrs, Shape;
    SpreadBitmaps(g, m, linked);
    SpreadTab(g, m, linked);
    InodeBlockLies(g, ls, n, 2);
    BitPlace(m - 1, 0);
    BitmapBlockLies(g, ls, n, BITS_PER_BLOCK * (m - 1));
    var r, two := Range(g.bmapStart, m), {g.bd + Place(m, INDIRECT), InodeBlockNo(g, 2)};
    assert r !! two && |two| == 2;
  }

  lemma SpreadIs(g: Geo, m: nat, linked: bool)
    requires Wide(g, m)
    ensures var v := Spread(g, m, linked); InUse(v, g, 2) && v.tab[2].typ == FILE && v.tab[2].nlink == if linked then 1 else 0
  {
    hide PutWord, ZeroBlock, ThirdEntry, SpreadOwner, Place, SpreadAddrs;
  }

  /** The last inode_put of a file fits its operation. */
  ghost predicate EveryCloseFits(g: Geo) {
    forall v, x :: Healthy(v, g) && InUse(v, g, x) ==> CloseFits(v, g, x, true, 1)
  }

  /** file_close stays within its reservation for every file on every healthy volume if
      and only if the bitmap has at most eight blocks, that is up to 16 MB of data. */
  lemma CloseFitsExactly(g: Geo, ls: nat, n: nat)
    requires Roomy(g) && g.ninodes >= 3 && Laid(g, ls, n)
    ensures EveryCloseFits(g) <==> g.nbits <= 8 * BITS_PER_BLOCK
  {
    hide Healthy, Spread, ReleaseSet, Range, BitmapBlocks;
    if g.nbits <= 8 * BITS_PER_BLOCK {
      assert BitmapBlocks(g) <= 8 by { FewBitmaps(g, 8); }
      forall v, x | Healthy(v, g) && InUse(v, g, x) ensures Shape(v, g) && CloseFits(v, g, x, true, 1) { ReleaseBound(v, g, x); }
    } else {
      var v := Spread(g, 9, false);
      SpreadIsHealthy(g, 9, false);
      SpreadIs(g, 9, false);
      SpreadLogs(g, ls, n, 9, false);
      SubsetSize(Range(g.bmapStart, 9) + {g.bd + Place(9, INDIRECT), InodeBlockNo(g, 2)}, ReleaseSet(v, g, 2));
      assert !CloseFits(v, g, 2, true, 1);
    }
  }

  lemma FewBitmaps(g: Geo, k: nat)
    requires g.nbits <= k * BITS_PER_BLOCK
    ensures BitmapBlocks(g) <= k
  {
  }

  /** The removal of an entry, with nobody having the inode open. */
  ghost predicate EveryFileUnlinkFits(g: Geo) {
    forall v, d: nat, k: nat, x :: Healthy(v, g) && Removable(v, g, d, k, x) && v.tab[x].typ != DIRECTORY ==>
      |UnlinkSet(v, g, d, k, x, true)| <= P.MAX_OPEN_BLOCKS
  }

  /** Entry `k` of directory `d` names `x` and can be removed. */
  ghost predicate Removable(v: Vol, g: Geo, d: nat, k: nat, x: int) {
    && Shape(v, g) && InUse(v, g, x) && Inum(g, d) && k / 8 < MAX_BLOCKS
    && Tree.CanUnlink(Abs(v, g), d, k) && Abs(v, g)[d].slots[k].inum == x
  }

  lemma SpreadRemovable(g: Geo, m: nat)
    requires Wide(g, m)
    ensures Removable(Spread(g, m, true), g, Tree.ROOT, 2, 2)
  {
    SpreadIs(g, m, true);
    SpreadAbs(g, m, true);
    hide Spread, Abs;
  }

  lemma SpreadUnlinkLogs(g: Geo, ls: nat, n: nat, m: nat)
    requires Wide(g, m) && Laid(g, ls, n)
    ensures |UnlinkSet(Spread(g, m, true), g, Tree.ROOT, 2, 2, true)| >= m + 3
  {
    SpreadIs(g, m, true);
    SpreadLogs(g, ls, n, m, true);
    SpreadRootAddr(g, m, true, 0);
    PlaceFits(g, m, INDIRECT);
    hide Spread, ReleaseSet, Range, Addr, Place, UnlinkSet, InodeBlockNo;
    UnlinkCovers(Spread(g, m, true), g, Tree.ROOT, 2, 2);
    var all := Range(g.bmapStart, m) + {g.bd + Place(m, INDIRECT), InodeBlockNo(g, 2)};
    assert g.bd !in all && |all + {g.bd}| == |all| + 1;
    SubsetSize(all + {g.bd}, UnlinkSet(Spread(g, m, true), g, Tree.ROOT, 2, 2, true));
  }

  lemma UnlinkCovers(v: Vol, g: Geo, d: nat, k: nat, x: nat)
    requires Shape(v, g) && Inum(g, d) && Inum(g, x) && k / 8 < MAX_BLOCKS && v.tab[x].nlink == 1
    ensures ReleaseSet(v, g, x) + {Addr(v, g, d, k / 8)} <= UnlinkSet(v, g, d, k, x, true)
  {
    hide ReleaseSet, Addr;
  }

  /** sys_unlink stays within its reservation for every plain file if and only if the
      bitmap has at most seven blocks. */
  lemma FileUnlinkFitsExactly(g: Geo, ls: nat, n: nat)
    requires Roomy(g) && g.ninodes >= 3 && Laid(g, ls, n)
    ensures EveryFileUnlinkFits(g) <==> g.nbits <= 7 * BITS_PER_BLOCK
  {
    hide Healthy, Spread, UnlinkSet, Range, BitmapBlocks, Tree.CanUnlink, Abs;
    if g.nbits <= 7 * BITS_PER_BLOCK {
      assert BitmapBlocks(g) <= 7 by { FewBitmaps(g, 7); }
      forall v, d: nat, k: nat, x | Healthy(v, g) && Removable(v, g, d, k, x) && v.tab[x].typ != DIRECTORY
        ensures |UnlinkSet(v, g, d, k, x, true)| <= P.MAX_OPEN_BLOCKS
      {
        UnlinkBound(v, g, d, k, x, true);
      }
    } else {
      SpreadIsHealthy(g, 8, true);
      SpreadIs(g, 8, true);
      SpreadRemovable(g, 8);
      SpreadUnlinkLogs(g, ls, n, 8);
    }
  }

  // ------------------------------------------------------------------
  // The image that the build makes
  // ------------------------------------------------------------------

  /** 80 MB: forty bitmap blocks, so neither call is safe on it, and the last bit of the
      bitmap stands for a block behind the end. */
  lemma BuiltImage()
    ensures Layout.SuperblockInit(163840).Some?
    ensures var sb := Layout.SuperblockInit(163840).value;
            && !EveryCloseFits(GeoOf(sb)) && !EveryFileUnlinkFits(GeoOf(sb))
            && Layout.DataRegion(sb).to == 163841
  {
    hide Layout.SuperblockInit, EveryCloseFits, EveryFileUnlinkFits;
    Layout.Computed(163840);
    assert Layout.BitmapBlocks(161465) == 40 && Layout.BitmapBlocks(161425) == 40;
    assert Layout.DataBlocks(163840) == 161425;
    var sb := Layout.SuperblockInit(163840).value;
    var g := GeoOf(sb);
    assert g.nbits == 161424 && g.bd == 2417;
    assert Laid(g, sb.logStart, 163841);
    CloseFitsExactly(g, sb.logStart, 163841);
    FileUnlinkFitsExactly(g, sb.logStart, 163841);
  }
}
