/** Physical memory in frames of 4096 bytes, and the free list that
    kernel/mem/pmemory.c threads through the free frames themselves. */
module Frames {
  import Blocks

  type byte = Blocks.byte
  type uint32 = Blocks.uint32

  const PG_SIZE: nat := 4096
  const ENTRIES: nat := 1024
  const KERNEL_BASE: uint32 := 0x8000_0000
  const MAX_FRAMES: nat := 0x4_0000  // PHY_MEMORY_TOP / PG_SIZE

  type Frame = f: seq<byte> | |f| == PG_SIZE witness seq(PG_SIZE, _ => 0)

  /** `((uint32_t *) f)[i]` */
  function Entry(f: Frame, i: nat): uint32
    requires i < ENTRIES
  {
    var b0: int, b1: int, b2: int, b3: int := f[4 * i], f[4 * i + 1], f[4 * i + 2], f[4 * i + 3];
    b0 + 0x100 * b1 + 0x1_0000 * b2 + 0x100_0000 * b3
  }

  /** `((uint32_t *) f)[i] = w` */
  function SetEntry(f: Frame, i: nat, w: uint32): (r: Frame)
    requires i < ENTRIES
    ensures Entry(r, i) == w
    ensures forall j: nat :: j < ENTRIES && j != i ==> Entry(r, j) == Entry(f, j)
  {
    Blocks.FourBytes(w);
    f[4 * i := w % 0x100][4 * i + 1 := w / 0x100 % 0x100][4 * i + 2 := w / 0x1_0000 % 0x100][4 * i + 3 := w / 0x100_0000]
  }

  function ZeroFrame(): (r: Frame)
    ensures forall j: nat :: j < ENTRIES ==> Entry(r, j) == 0
    ensures forall x :: 0 <= x < PG_SIZE ==> r[x] == 0
  {
    seq(PG_SIZE, j => 0)
  }

  /** KP2V and KV2P, which wrap at 32 bits. */
  function Kp2v(p: uint32): uint32 { (p + KERNEL_BASE) % 0x1_0000_0000 }
  function Kv2p(v: uint32): uint32 { (v - KERNEL_BASE) % 0x1_0000_0000 }

  /** They undo each other, and are the same function: PDE_VADDR may use either. */
  lemma KernelAddresses(x: uint32)
    ensures Kv2p(Kp2v(x)) == x == Kp2v(Kv2p(x)) && Kv2p(x) == Kp2v(x)
  {
  }

  type Memory = seq<Frame>

  /** The kernel's pointer to frame `f`. */
  function Pointer(f: nat): uint32
    requires f < MAX_FRAMES
  {
    KERNEL_BASE + PG_SIZE * f
  }

  predicate Listable(mem: Memory, free: seq<nat>) {
    && |mem| <= MAX_FRAMES
    && (forall k :: 0 <= k < |free| ==> 0 < free[k] < |mem|)
    && (forall j, k :: 0 <= j < k < |free| ==> free[j] != free[k])
  }

  /** What the list shows from position `k` on. */
  function From(mem: Memory, free: seq<nat>, k: nat): uint32
    requires Listable(mem, free)
  {
    if k < |free| then Pointer(free[k]) else 0
  }

  /** Following `next` from `head` visits exactly `free`. */
  predicate Chain(mem: Memory, head: uint32, free: seq<nat>) {
    && Listable(mem, free) && head == From(mem, free, 0)
    && forall k :: 0 <= k < |free| ==> Entry(mem[free[k]], 0) == From(mem, free, k + 1)
  }

  /** A change to frames that are not free leaves the list alone. */
  lemma ChainKept(mem: Memory, mem': Memory, head: uint32, free: seq<nat>)
    requires Chain(mem, head, free) && |mem'| == |mem| && forall k :: 0 <= k < |free| ==> mem'[free[k]] == mem[free[k]]
    ensures Chain(mem', head, free)
  {
    hide Entry, Pointer;
    forall k | 0 <= k < |free| ensures Entry(mem'[free[k]], 0) == From(mem', free, k + 1) {
      assert Entry(mem[free[k]], 0) == From(mem, free, k + 1);
    }
  }

  lemma ChainPop(mem: Memory, head: uint32, free: seq<nat>)
    requires Chain(mem, head, free) && free != []
    ensures Chain(mem, Entry(mem[free[0]], 0), free[1..])
  {
    hide Entry, Pointer;
    forall k | 0 <= k < |free| - 1 ensures Entry(mem[free[1..][k]], 0) == From(mem, free[1..], k + 1) {
      assert Entry(mem[free[k + 1]], 0) == From(mem, free, k + 2);
    }
  }

  lemma ChainPush(mem: Memory, head: uint32, free: seq<nat>, f: nat)
    requires Chain(mem, head, free) && 0 < f < |mem| && f !in free
    ensures Chain(mem[f := SetEntry(mem[f], 0, head)], Pointer(f), [f] + free)
  {
    hide Entry, SetEntry, Pointer;
    var mem', free' := mem[f := SetEntry(mem[f], 0, head)], [f] + free;
    assert Listable(mem', free');
    assert head == From(mem', free', 1);
    forall k | 0 <= k < |free'| ensures Entry(mem'[free'[k]], 0) == From(mem', free', k + 1) {
      if k > 0 {
        assert free'[k] == free[k - 1] && mem'[free'[k]] == mem[free[k - 1]];
        assert Entry(mem[free[k - 1]], 0) == From(mem, free, k);
      }
    }
  }

  lemma PointerFacts(f: nat)
    requires f < MAX_FRAMES
    ensures Kv2p(Pointer(f)) == PG_SIZE * f && Kp2v(PG_SIZE * f) == Pointer(f)
    ensures PG_SIZE * f / PG_SIZE == f && Pointer(f) != 0
  {
  }

  lemma NullPointer()
    ensures Kv2p(0) == KERNEL_BASE
  {
  }

  lemma ChainHead(mem: Memory, head: uint32, free: seq<nat>)
    requires Chain(mem, head, free)
    ensures |mem| <= MAX_FRAMES && forall k :: 0 <= k < |free| ==> 0 < free[k] < |mem|
    ensures free == [] ==> head == 0
    ensures free != [] ==> head == Pointer(free[0]) && head != 0
  {
  }

  class Ram {
    var mem: Memory
    var freeList: uint32
    var freeCnt: nat
    var usingCnt: int
    ghost var free: seq<nat>

    ghost predicate Valid()
      reads this
    {
      Chain(mem, freeList, free) && freeCnt == |free|
    }

    /** The frames that can still be allocated. */
    ghost function Free(): set<nat>
      reads this
    {
      set f | f in free
    }

    constructor (mem: Memory)
      requires |mem| <= MAX_FRAMES
      ensures Valid() && this.mem == mem && free == [] && usingCnt == 0
    {
      this.mem, freeList, freeCnt, usingCnt, free := mem, 0, 0, 0, [];
    }

    /** palloc.  When nothing is left it answers KV2P(NULL), which is not 0, so no
        caller that compares with 0 notices. */
    method Palloc() returns (pa: uint32)
      requires Valid()
      modifies this`freeList, this`freeCnt, this`usingCnt, this`free
      ensures Valid() && freeCnt + usingCnt == old(freeCnt + usingCnt)
      ensures old(free) == [] ==> pa == KERNEL_BASE && free == [] && usingCnt == old(usingCnt)
      ensures old(free) != [] ==> pa == PG_SIZE * old(free)[0] && free == old(free)[1..] && pa != 0
    {
      hide Entry, Chain, Kv2p, Pointer;
      ChainHead(mem, freeList, free);
      NullPointer();
      var page := 0;
      if freeList != 0 {
        PointerFacts(free[0]);
        ChainPop(mem, freeList, free);
        page := freeList;
        freeList := Entry(mem[Kv2p(page) / PG_SIZE], 0);
        freeCnt := freeCnt - 1;
        usingCnt := usingCnt + 1;
        free := free[1..];
      }
      pa := Kv2p(page);
    }

    /** pfree of a frame in use: its first word becomes the link. */
    method Pfree(pa: uint32)
      requires Valid() && pa % PG_SIZE == 0 && 0 < pa / PG_SIZE < |mem| && pa / PG_SIZE !in free
      modifies this
      ensures Valid() && freeCnt == old(freeCnt) + 1 && usingCnt == old(usingCnt) - 1
      ensures free == [pa / PG_SIZE] + old(free)
      ensures mem == old(mem)[pa / PG_SIZE := mem[pa / PG_SIZE]]
      ensures forall k: nat :: 1 <= k < ENTRIES ==> Entry(mem[pa / PG_SIZE], k) == Entry(old(mem)[pa / PG_SIZE], k)
    {
      hide Entry, SetEntry, Chain, Kp2v, Pointer;
      ChainHead(mem, freeList, free);
      var f := pa / PG_SIZE;
      PointerFacts(f);
      ChainPush(mem, freeList, free, f);
      mem := mem[f := SetEntry(mem[f], 0, freeList)];
      freeList := Kp2v(pa);
      freeCnt := freeCnt + 1;
      usingCnt := usingCnt - 1;
      free := [f] + free;
    }

    /** A store by the kernel into a frame that is in use. */
    method Poke(f: nat, to: Frame)
      requires Valid() && f < |mem| && f !in free
      modifies this`mem
      ensures Valid() && mem == old(mem)[f := to]
    {
      ChainKept(mem, mem[f := to], freeList, free);
      mem := mem[f := to];
    }
  }
}
