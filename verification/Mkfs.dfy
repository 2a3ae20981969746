/** The disk that mkfs writes: the root directory alone, in the layout of the
    superblock, with an empty log.  It is a state from which a run can start. */
module Mkfs {
  import opened Blocks
  import opened Common
  import opened Volume
  import opened FileSystem
  import opened InodeLife
  import opened Directory
  import opened DirectoryCode
  import Tree
  import opened Namei
  import opened FsCalls
  import opened FsOps
  import opened DiskFormat
  import opened Images
  import P = LogProtocol
  import opened Journal
  import opened JournalSystem
  import opened CrashSafety
  import opened Running
  import opened Kernel
  import Layout

  // ------------------------------------------------------------------
  // The volume
  // ------------------------------------------------------------------

  /** An entry of the root directory for itself; what lies behind the name's NUL is
      whatever was on the stack. */
  function RootEntry(name: Name, stack: seq<byte>): (b: seq<byte>)
    requires |name| < NAME_LEN && |stack| == DIRENT
    ensures |b| == DIRENT
  {
    Encode(Tree.ROOT, name, stack)
  }

  /** The first block of the root directory: "." and "..", each entry written over a
      block that was zero. */
  function RootBlock(s1: seq<byte>, s2: seq<byte>): (b: Block)
    requires |s1| == |s2| == DIRENT
  {
    Patch(Patch(ZeroBlock(), 0, RootEntry(DOT, s1)), DIRENT, RootEntry(DOTDOT, s2))
  }

  lemma RootBlockIs(s1: seq<byte>, s2: seq<byte>)
    requires |s1| == |s2| == DIRENT
    ensures RootBlock(s1, s2)[..DIRENT] == RootEntry(DOT, s1) && RootBlock(s1, s2)[DIRENT..2 * DIRENT] == RootEntry(DOTDOT, s2)
  {
    hide RootEntry, Patch;
    assert forall x :: 0 <= x < DIRENT ==> RootBlock(s1, s2)[x] == RootEntry(DOT, s1)[x];
  }

  function RootInode(g: Geo): Dinode
    requires 0 < g.bd < 0x1_0000_0000
  {
    Dinode(DIRECTORY, 2, 2 * DIRENT, 0, 0, [g.bd, 0, 0, 0, 0, 0, 0, 0, 0, 0, 0, 0])
  }

  predicate Roomy(g: Geo) {
    g.ninodes >= 2 && g.nbits >= 1 && 0 < g.bd && g.bd + g.nbits <= 0x1_0000_0000
  }

  /** What mkfs starts from: a disk of zeros. */
  function Blank(g: Geo): (v: Vol)
    requires Roomy(g)
    ensures Shape(v, g)
  {
    Vol(Repeat(g.nbits, false), Repeat(g.nbits, ZeroBlock()), Repeat(g.ninodes, FreshInode(NONE)))
  }

  function NewVolume(g: Geo, s1: seq<byte>, s2: seq<byte>): (v: Vol)
    requires Roomy(g) && |s1| == |s2| == DIRENT
    ensures Shape(v, g)
  {
    var v := Blank(g);
    Vol(v.bits[0 := true], v.data[0 := RootBlock(s1, s2)], v.tab[Tree.ROOT := RootInode(g)])
  }

  function NewBook(g: Geo): Book
    requires Roomy(g)
  {
    Book(map[0 := Owner(Tree.ROOT, 0)], Repeat(g.ninodes, 0)[Tree.ROOT := 1], {})
  }

  lemma NewOwned(g: Geo, s1: seq<byte>, s2: seq<byte>)
    requires Roomy(g) && |s1| == |s2| == DIRENT
    ensures Owned(NewVolume(g, s1, s2), g, NewBook(g)) && Settled(NewVolume(g, s1, s2), g, NewBook(g))
  {
    hide Blocks.Word, RootBlock, ZeroBlock;
    var v, k := NewVolume(g, s1, s2), NewBook(g);
    forall i, pos | InUse(v, g, i) && 0 <= pos <= INDIRECT ensures PosOk(v, g, k, i, pos) {
      assert i == Tree.ROOT && v.tab[i] == RootInode(g);
    }
  }

  lemma NewSlots(g: Geo, s1: seq<byte>, s2: seq<byte>)
    requires Roomy(g) && |s1| == |s2| == DIRENT
    ensures var v := NewVolume(g, s1, s2);
            v.tab[Tree.ROOT].size == 2 * DIRENT && Slots(Contents(v, g, Tree.ROOT)) == Tree.Dots(Tree.ROOT, Tree.ROOT)
  {
    hide Blocks.Word, RootEntry, Decode, RootBlock;
    var v := NewVolume(g, s1, s2);
    var c, b := Contents(v, g, Tree.ROOT), RootBlock(s1, s2);
    assert v.data[0] == b && Addr(v, g, Tree.ROOT, 0) == g.bd;
    forall x | 0 <= x < 2 * DIRENT ensures c[x] == b[x] { }
    assert c[0..DIRENT] == b[..DIRENT] && c[DIRENT..2 * DIRENT] == b[DIRENT..2 * DIRENT];
    RootBlockIs(s1, s2);
    RootDecodes(s1, s2);
    assert Slots(c) == [Decode(c[0..DIRENT]), Decode(c[DIRENT..2 * DIRENT])];
  }

  lemma RootDecodes(s1: seq<byte>, s2: seq<byte>)
    requires |s1| == |s2| == DIRENT
    ensures Decode(RootEntry(DOT, s1)) == Slot(Tree.ROOT, DOT) && Decode(RootEntry(DOTDOT, s2)) == Slot(Tree.ROOT, DOTDOT)
  {
    hide Decode, Encode;
    DecodeEncode(Tree.ROOT, DOT, s1);
    DecodeEncode(Tree.ROOT, DOTDOT, s2);
  }

  /** What mkfs makes is healthy. */
  lemma NewIsHealthy(g: Geo, s1: seq<byte>, s2: seq<byte>)
    requires Roomy(g) && |s1| == |s2| == DIRENT
    ensures Healthy(NewVolume(g, s1, s2), g)
  {
    hide Contents, Owned, Settled, Slots, Tree.Ok, RootBlock, ZeroBlock;
    var v := NewVolume(g, s1, s2);
    NewOwned(g, s1, s2);
    NewSlots(g, s1, s2);
    var t := Abs(v, g);
    forall i | 0 <= i < g.ninodes ensures t[i] == Tree.Fresh(g.ninodes)[i] { assert t[i] == NodeOf(v, g, i); }
    assert t == Tree.Fresh(g.ninodes);
    Tree.FreshOk(g.ninodes);
  }

  // ------------------------------------------------------------------
  // The disk, write by write
  // ------------------------------------------------------------------

  /** The log's header block is not touched. */
  predicate SameHeader(d: Disk, r: Disk, ls: nat) {
    |r| == |d| && ls < |d| && r[ls] == d[ls]
  }

  lemma HeaderInside(g: Geo, ls: nat, n: nat)
    requires Laid(g, ls, n)
    ensures ls < n
  {
  }

  /** The bit search of balloc in one bitmap block. */
  method ClearBitIn(blk: Block, n: nat) returns (bit: nat)
    requires n <= BITS_PER_BLOCK
    ensures bit <= n && (bit < n ==> !BitAt(blk, bit)) && forall c: nat :: c < bit ==> BitAt(blk, c)
  {
    hide BitAt;
    bit := 0;
    while bit < n && BitAt(blk, bit)
      invariant bit <= n && forall c: nat :: c < bit ==> BitAt(blk, c)
    {
      bit := bit + 1;
    }
  }

  /** The bits of block `j` of the bitmap as the disk shows them. */
  lemma BitsShown(d: Disk, g: Geo, ls: nat, v: Vol, j: nat, c: nat)
    requires Laid(g, ls, |d|) && Represents(d, g, v) && c < BITS_PER_BLOCK && BITS_PER_BLOCK * j + c < g.nbits
    ensures g.bmapStart + j < |d| && BitmapBlockNo(g, BITS_PER_BLOCK * j + c) == g.bmapStart + j
    ensures (BITS_PER_BLOCK * j + c) % BITS_PER_BLOCK == c
    ensures BitAt(d[g.bmapStart + j], c) <==> v.bits[BITS_PER_BLOCK * j + c]
  {
    hide BitAt, InodeAt;
    var b := BITS_PER_BLOCK * j + c;
    BitPlace(j, c);
    assert b % BITS_PER_BLOCK == c && BitmapBlockNo(g, b) == g.bmapStart + j;
    BitmapBlockLies(g, ls, |d|, b);
    assert StoresAt(d[BitmapBlockNo(g, b)], BitmapBlockNo(g, b), g, v);
  }

  /** balloc on the bytes of the disk, in the kernel as in mkfs: the lowest free block is
      marked and zeroed, 0 if there is none. */
  method DiskBalloc(d: Disk, g: Geo, ls: nat, ghost v: Vol) returns (addr: nat, r: Disk)
    requires Laid(g, ls, |d|) && Represents(d, g, v)
    ensures addr == 0 ==> r == d && forall c: nat :: c < g.nbits ==> v.bits[c]
    ensures addr != 0 ==> DataAddr(g, addr) && !v.bits[addr - g.bd] && (forall c: nat :: c < addr - g.bd ==> v.bits[c])
    ensures addr != 0 ==> SameHeader(d, r, ls) && Represents(r, g, Alloc(v, addr - g.bd))
  {
    hide BitAt, SetBit, StoresAt, ZeroBlock, Alloc, Laid;
    var left, j := g.nbits, 0;
    while left > 0
      invariant 0 <= left <= g.nbits
      invariant left > 0 ==> BITS_PER_BLOCK * j + left == g.nbits
      invariant forall c: nat :: c < g.nbits - left ==> v.bits[c]
    {
      var n := if BITS_PER_BLOCK > left then left else BITS_PER_BLOCK;
      BitsShown(d, g, ls, v, j, 0);
      var bit := ClearBitIn(d[g.bmapStart + j], n);
      forall c: nat | BITS_PER_BLOCK * j <= c < BITS_PER_BLOCK * j + bit ensures v.bits[c] {
        BitsShown(d, g, ls, v, j, c - BITS_PER_BLOCK * j);
      }
      if bit < n {
        BitsShown(d, g, ls, v, j, bit);
        AllocOnDisk(d, g, ls, v, BITS_PER_BLOCK * j + bit);
        BitmapBlockLies(g, ls, |d|, BITS_PER_BLOCK * j + bit);
        LogBeforeData(g, ls, |d|);
        addr := g.bd + j * BITS_PER_BLOCK + bit;
        r := d[g.bmapStart + j := SetBit(d[g.bmapStart + j], bit)][addr := ZeroBlock()];
        return;
      }
      left, j := left - n, j + 1;
    }
    return 0, d;
  }

  /** iwrite */
  method IWrite(d: Disk, g: Geo, ls: nat, i: nat, e: Dinode, ghost v: Vol) returns (r: Disk)
    requires Laid(g, ls, |d|) && Represents(d, g, v) && i < g.ninodes && Storable(e)
    ensures SameHeader(d, r, ls) && Represents(r, g, v.(tab := v.tab[i := e]))
  {
    hide WithInode, StoresAt, Laid;
    InodeOnDisk(d, g, ls, v, i, e);
    InodeBlockLies(g, ls, |d|, i);
    HeaderInside(g, ls, |d|);
    r := d[InodeBlockNo(g, i) := WithInode(d[InodeBlockNo(g, i)], i, e)];
  }

  /** The store of iappend into a data block. */
  method Append(d: Disk, g: Geo, ls: nat, addr: nat, at: nat, e: seq<byte>, ghost v: Vol) returns (r: Disk)
    requires Laid(g, ls, |d|) && Represents(d, g, v) && DataAddr(g, addr) && at + |e| <= BLOCK_SIZE
    ensures SameHeader(d, r, ls) && Represents(r, g, Store(v, addr - g.bd, Patch(v.data[addr - g.bd], at, e)))
  {
    hide StoresAt, Patch, Laid;
    MountedData(d, g, ls, v, addr - g.bd);
    LogBeforeData(g, ls, |d|);
    DataOnDisk(d, g, ls, v, addr - g.bd, Patch(v.data[addr - g.bd], at, e));
    r := d[addr := Patch(d[addr], at, e)];
  }

  /** The writes of create_root_file on a disk of zeros: the inode, its link, the block
      and the entry ".", the size, the entry "..", the size, the second link.  They leave
      the new volume. */
  method MakeRoot(d: Disk, g: Geo, ls: nat, s1: seq<byte>, s2: seq<byte>) returns (r: Disk)
    requires Roomy(g) && Laid(g, ls, |d|) && |s1| == |s2| == DIRENT && Represents(d, g, Blank(g))
    ensures SameHeader(d, r, ls) && Represents(r, g, NewVolume(g, s1, s2))
  {
    hide StoresAt, Laid, ZeroBlock, RootEntry, Patch;
    ghost var v0 := Blank(g);
    var e := FreshInode(DIRECTORY);
    r := IWrite(d, g, ls, Tree.ROOT, e, v0);
    ghost var v1 := v0.(tab := v0.tab[Tree.ROOT := e]);
    e := e.(nlink := 1);
    r := IWrite(r, g, ls, Tree.ROOT, e, v1);
    ghost var v2 := v1.(tab := v1.tab[Tree.ROOT := e]);
    var addr;
    addr, r := DiskBalloc(r, g, ls, v2);
    assert !v2.bits[0];
    assert addr == g.bd;
    ghost var v3 := Alloc(v2, 0);
    r := Append(r, g, ls, addr, 0, RootEntry(DOT, s1), v3);
    ghost var v4 := Store(v3, 0, Patch(v3.data[0], 0, RootEntry(DOT, s1)));
    e := e.(size := DIRENT, addrs := e.addrs[0 := addr]);
    r := IWrite(r, g, ls, Tree.ROOT, e, v4);
    ghost var v5 := v4.(tab := v4.tab[Tree.ROOT := e]);
    r := Append(r, g, ls, addr, DIRENT, RootEntry(DOTDOT, s2), v5);
    ghost var v6 := Store(v5, 0, Patch(v5.data[0], DIRENT, RootEntry(DOTDOT, s2)));
    e := e.(size := 2 * DIRENT);
    r := IWrite(r, g, ls, Tree.ROOT, e, v6);
    ghost var v7 := v6.(tab := v6.tab[Tree.ROOT := e]);
    e := e.(nlink := 2);
    r := IWrite(r, g, ls, Tree.ROOT, e, v7);
    assert e == RootInode(g);
    assert v7.(tab := v7.tab[Tree.ROOT := e]) == NewVolume(g, s1, s2);
  }

  lemma ZeroStores(g: Geo, x: int)
    requires Roomy(g)
    ensures StoresAt(ZeroBlock(), x, g, Blank(g))
  {
    hide BitAt, InodeAt, ZeroBlock;
    forall i: nat | i < INODES_PER_BLOCK ensures InodeAt(ZeroBlock(), i) == FreshInode(NONE) { ZeroInode(i); }
    forall b: nat | b < BITS_PER_BLOCK ensures !BitAt(ZeroBlock(), b) { ZeroBits(b); }
  }

  lemma ZeroInode(i: nat)
    requires i < INODES_PER_BLOCK
    ensures InodeAt(ZeroBlock(), i) == FreshInode(NONE)
  {
    hide Blocks.Word;
    assert InodeAt(ZeroBlock(), i).addrs == FreshInode(NONE).addrs;
  }

  /** A disk of zeros, the root directory made on it, and a machine that has just
      booted: a state from which a run can start. */
  method MkfsStarts(g: Geo, ls: nat, n: nat, tasks: nat, s1: seq<byte>, s2: seq<byte>) returns (d0: Disk, ghost s: Sys)
    requires Roomy(g) && Laid(g, ls, n) && n <= 0x1_0000_0000 && |s1| == |s2| == DIRENT
    ensures JournalSystem.Start(s, ls, d0) && |s.p.tasks| == tasks
    ensures |d0| == n && Represents(d0, g, NewVolume(g, s1, s2)) && HoldsHealthy(d0, g)
  {
    hide Healthy, StoresAt, InodeAt, BitAt, RootBlock, NewVolume, ZeroBlock;
    var d: Disk := Repeat(n, ZeroBlock());
    forall x | 0 <= x < n ensures StoresAt(d[x], x, g, Blank(g)) { ZeroStores(g, x); }
    assert Represents(d, g, Blank(g));
    d0 := MakeRoot(d, g, ls, s1, s2);
    NewIsHealthy(g, s1, s2);
    s := Sys(P.State(P.BootView, seq(tasks, _ => P.Out), 0, 0), d0, map[], Up, d0, [], []);
  }

  /** The kernel comes up on the disk of mkfs, and every call can be made. */
  method FirstBoot(g: Geo, ls: nat, n: nat, tasks: nat, s1: seq<byte>, s2: seq<byte>) returns (m: Machine)
    requires Roomy(g) && Laid(g, ls, n) && n <= 0x1_0000_0000 && |s1| == |s2| == DIRENT
    requires g.ninodes < 0x1_0000_0000 && tasks > 0
    ensures m.Up() && fresh(m) && fresh(m.fs) && m.fs.vol == NewVolume(g, s1, s2)
  {
    hide Owned, Settled, Represents, Tree.Ok, DirSizes, FieldsOk, NewVolume, JournalSystem.Start, HoldsHealthy, Laid;
    var d0, s := MkfsStarts(g, ls, n, tasks, s1, s2);
    NewOwned(g, s1, s2);
    NewIsHealthy(g, s1, s2);
    m := new Machine(g, ls, 0, NewVolume(g, s1, s2), NewBook(g), s, d0);
  }

  /** The geometry that the kernel reads from the superblock. */
  function GeoOf(sb: Layout.Superblock): Geo {
    Geo(sb.inodeStart, sb.bmapStart, sb.bdataStart, 8 * sb.bmapBytes, sb.ninodes)
  }

  /** superblock_init lays the regions out as the kernel needs them exactly on the disks
      on which the bitmap does not pass the end. */
  lemma SuperblockLays(sectors: uint32)
    requires Layout.SuperblockInit(sectors).Some?
    ensures var sb := Layout.SuperblockInit(sectors).value;
            Laid(GeoOf(sb), sb.logStart, sectors) && Roomy(GeoOf(sb)) <==> Layout.DataRegion(sb).to <= sectors
  {
    hide Layout.SuperblockInit;
    Layout.Accepts(sectors);
    Layout.Computed(sectors);
    Layout.LayoutIsSound(sectors);
  }
}
