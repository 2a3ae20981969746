/** The disk layout that mkfs computes: mkfs/superblock.c, with its 32-bit
    arithmetic. */
module Layout {
  import opened Blocks
  import opened Common
  import Volume
  import LogProtocol

  const INODES_PER_BLOCK: nat := Volume.INODES_PER_BLOCK
  const BITS_PER_BLOCK: nat := Volume.BITS_PER_BLOCK
  const LOG_SIZE: nat := LogProtocol.LOG_SIZE
  const NFILES_PER_DISK: nat := 16384

  datatype Superblock = Superblock(size: uint32, nblocks: uint32, ninodes: uint32, inodeStart: uint32, nlog: uint32,
                                   logStart: uint32, bmapStart: uint32, bmapBytes: uint32, bdataStart: uint32)

  /** A 32-bit register. */
  function Wrap(x: int): uint32 { x % 0x1_0000_0000 }

  /** ROUND_UP(x, step) */
  function RoundUp(x: uint32, step: nat): uint32
    requires 0 < step < 0x1_0000_0000
  {
    Wrap(x + step - 1) / step
  }

  /** superblock_init; None is its exit(1). */
  function SuperblockInit(sectors: uint32): Option<Superblock> {
    var inodeBlocks := RoundUp(NFILES_PER_DISK, INODES_PER_BLOCK);
    var logStart := Wrap(2 + inodeBlocks + 1);
    var nlog := LOG_SIZE + 1;
    var data := Wrap(sectors - inodeBlocks - nlog - 2 - 1);
    if data > sectors then None else
    var blocks := RoundUp(data / 8, BLOCK_SIZE);
    if Wrap(data - blocks) > data then None else
    var data' := Wrap(data - blocks);
    var bytes := data' / 8;
    var blocks' := RoundUp(bytes, BLOCK_SIZE);
    var bmapStart := Wrap(logStart + nlog + 1);
    if data' < 100 then None
    else Some(Superblock(sectors, data', NFILES_PER_DISK, 2, nlog, logStart, bmapStart, bytes, Wrap(bmapStart + blocks' + 1)))
  }

  /** Half-open ranges of block numbers. */
  datatype Region = Region(from: int, to: int)

  predicate In(r: Region, b: int) { r.from <= b < r.to }

  function InodeRegion(sb: Superblock): Region { Region(sb.inodeStart, sb.inodeStart + (NFILES_PER_DISK + INODES_PER_BLOCK - 1) / INODES_PER_BLOCK) }
  function LogRegion(sb: Superblock): Region { Region(sb.logStart, sb.logStart + sb.nlog) }
  function BitmapRegion(sb: Superblock): Region { Region(sb.bmapStart, sb.bmapStart + (sb.bmapBytes + BLOCK_SIZE - 1) / BLOCK_SIZE) }
  function DataRegion(sb: Superblock): Region { Region(sb.bdataStart, sb.bdataStart + 8 * sb.bmapBytes) }

  /** Behind the superblock, ordered, and pairwise disjoint. */
  predicate Ordered(sb: Superblock) {
    && 2 <= InodeRegion(sb).from <= InodeRegion(sb).to <= LogRegion(sb).from <= LogRegion(sb).to
    && LogRegion(sb).to <= BitmapRegion(sb).from <= BitmapRegion(sb).to <= DataRegion(sb).from <= DataRegion(sb).to
  }

  function InodeBlock(sb: Superblock, i: int): int { sb.inodeStart + i / INODES_PER_BLOCK }
  function LogSlot(sb: Superblock, n: int): int { sb.logStart + n }
  function BitmapBlock(sb: Superblock, b: int): int { sb.bmapStart + b / BITS_PER_BLOCK }
  function DataBlock(sb: Superblock, b: int): int { sb.bdataStart + b }

  /** Everything the kernel addresses lies in its own region. */
  ghost predicate Placed(sb: Superblock) {
    && (forall i :: 0 <= i < sb.ninodes ==> In(InodeRegion(sb), InodeBlock(sb, i)))
    && (forall n :: 0 <= n <= LOG_SIZE ==> In(LogRegion(sb), LogSlot(sb, n)))
    && (forall b :: 0 <= b < 8 * sb.bmapBytes ==> In(BitmapRegion(sb), BitmapBlock(sb, b)))
    && (forall b :: 0 <= b < 8 * sb.bmapBytes ==> In(DataRegion(sb), DataBlock(sb, b)))
  }

  /** Bitmap blocks for `n` data blocks. */
  function BitmapBlocks(n: nat): nat { (n / 8 + 511) / 512 }

  /** Data blocks of a disk of `size` blocks, by the second estimate. */
  function DataBlocks(size: nat): int
    requires size >= 2375
  {
    size - 2375 - BitmapBlocks(size - 2375)
  }

  lemma WrapId(x: int)
    requires 0 <= x < 0x1_0000_0000
    ensures Wrap(x) == x
  {
  }

  lemma BitmapFits(n: nat)
    ensures BitmapBlocks(n) <= n && (n >= 8 ==> BitmapBlocks(n) >= 1) && 4096 * BitmapBlocks(n) >= n - n % 8
    ensures 4096 * BitmapBlocks(n) <= n + 4095
  {
  }

  /** Without wrap-around: what is computed on a disk large enough to try. */
  lemma Computed(sectors: uint32)
    requires sectors >= 2375
    ensures var n := DataBlocks(sectors);
            n >= 0 && SuperblockInit(sectors) ==
            if n < 100 then None
            else Some(Superblock(sectors, n, NFILES_PER_DISK, 2, 31, 2344, 2376, n / 8, 2377 + BitmapBlocks(n)))
  {
    hide Wrap;
    WrapId(NFILES_PER_DISK + INODES_PER_BLOCK - 1);
    WrapId(2344);
    WrapId(2376);
    var data := sectors - 2375;
    WrapId(data);
    WrapId(data / 8 + BLOCK_SIZE - 1);
    BitmapFits(data);
    var n := DataBlocks(sectors);
    WrapId(n);
    WrapId(n / 8 + BLOCK_SIZE - 1);
    BitmapFits(n);
    WrapId(2377 + BitmapBlocks(n));
  }

  /** The smallest disk that is accepted has 2476 sectors. */
  lemma Accepts(sectors: uint32)
    ensures SuperblockInit(sectors).Some? <==> sectors >= 2476
  {
    if sectors >= 2375 {
      hide SuperblockInit;
      Computed(sectors);
      EnoughData(sectors - 2375);
    } else {
      hide RoundUp;
      InodeBlocksAre();
    }
  }

  lemma InodeBlocksAre()
    ensures RoundUp(NFILES_PER_DISK, INODES_PER_BLOCK) == 2341
  {
  }

  lemma EnoughData(n: nat)
    ensures n - BitmapBlocks(n) >= 100 <==> n >= 101
  {
    BitmapFits(n);
  }

  lemma LayoutIsSound(sectors: uint32)
    requires SuperblockInit(sectors).Some?
    ensures Ordered(SuperblockInit(sectors).value) && Placed(SuperblockInit(sectors).value)
  {
    hide SuperblockInit;
    Accepts(sectors);
    Computed(sectors);
    var sb := SuperblockInit(sectors).value;
    BitmapFits(sb.nblocks);
    forall b | 0 <= b < 8 * sb.bmapBytes ensures In(BitmapRegion(sb), BitmapBlock(sb, b)) { BitInBlock(sb.bmapBytes, b); }
  }

  lemma BitInBlock(bytes: nat, b: nat)
    requires b < 8 * bytes
    ensures b / BITS_PER_BLOCK < (bytes + 511) / 512
  {
  }

  /** The bitmap may cover up to two blocks that the disk does not have.  It stays
      on the disk exactly if two blocks were lost to rounding down to whole bitmap
      bytes and to bitmap blocks that the second estimate no longer needs. */
  lemma LastBit(sectors: uint32)
    requires SuperblockInit(sectors).Some?
    ensures var sb := SuperblockInit(sectors).value;
            var saved := BitmapBlocks(sectors - 2375) - BitmapBlocks(sb.nblocks);
            && DataRegion(sb).to <= sectors + 2 && saved >= 0
            && (DataRegion(sb).to <= sectors <==> sb.nblocks % 8 >= 2 - saved)
  {
    hide SuperblockInit, BitmapBlocks;
    Accepts(sectors);
    Computed(sectors);
    SecondEstimate(sectors - 2375);
    var sb := SuperblockInit(sectors).value;
    assert 8 * sb.bmapBytes == sb.nblocks - sb.nblocks % 8;
  }

  lemma SecondEstimate(n: nat)
    ensures 0 <= n - BitmapBlocks(n)
    ensures BitmapBlocks(n - BitmapBlocks(n)) <= BitmapBlocks(n)
  {
    BitmapFits(n);
    BitmapFits(n - BitmapBlocks(n));
  }

  /** A disk on which the last two bitmap bits name blocks past its end. */
  lemma OffTheEnd()
    ensures SuperblockInit(3176).Some? && DataRegion(SuperblockInit(3176).value).to == 3176 + 2
  {
    hide SuperblockInit;
    Computed(3176);
    assert DataBlocks(3176) == 800;
  }
}
