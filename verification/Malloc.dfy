/** The user-level heap allocator: Kernighan and Ritchie's circular,
    address-ordered, coalescing free list (The C Programming Language, 2nd
    edition, section 8.7).  Addresses count units of sizeof(Header) = 8 bytes;
    `base` lies below everything sbrk hands out. */
module Malloc {

  const HEADER: nat := 8
  const MIN_CORE: nat := 4096
  const TWO32: nat := 0x1_0000_0000

  // ------------------------------------------------------------------
  // Blocks tile the core
  // ------------------------------------------------------------------

  /** The blocks whose headers lie at `bs` are non-empty, do not overlap and
      cover exactly the units in `core`. */
  ghost predicate Tiling(bs: set<int>, size: map<int, int>, core: set<int>) {
    && (forall a :: a in bs ==> a in size && size[a] >= 1)
    && (forall a, b :: a in bs && b in bs && a < b ==> a + size[a] <= b)
    && (forall a, u :: a in bs && a <= u < a + size[a] ==> u in core)
    && (forall u :: u in core ==> exists a :: a in bs && a <= u < a + size[a])
  }

  lemma MergeTiling(bs: set<int>, size: map<int, int>, core: set<int>, a: int, b: int)
    requires Tiling(bs, size, core) && a in bs && b in bs && a + size[a] == b
    ensures Tiling(bs - {b}, size[a := size[a] + size[b]], core)
  {
    var size' := size[a := size[a] + size[b]];
    forall u | u in core ensures exists c :: c in bs - {b} && c <= u < c + size'[c] {
      var c :| c in bs && c <= u < c + size[c];
      if c == b || c == a { assert a <= u < a + size'[a]; } else { assert c <= u < c + size'[c]; }
    }
  }

  lemma SplitTiling(bs: set<int>, size: map<int, int>, core: set<int>, a: int, n: int)
    requires Tiling(bs, size, core) && a in bs && 1 <= n < size[a]
    ensures var q := a + size[a] - n;
            q !in bs && Tiling(bs + {q}, size[a := size[a] - n][q := n], core)
  {
    var q := a + size[a] - n;
    var size' := size[a := size[a] - n][q := n];
    assert q !in bs;
    forall u | u in core ensures exists c :: c in bs + {q} && c <= u < c + size'[c] {
      var c :| c in bs && c <= u < c + size[c];
      if c != a {
        assert c <= u < c + size'[c];
      } else if u < q {
        assert a <= u < a + size'[a];
      } else {
        assert q <= u < q + size'[q];
      }
    }
  }

  ghost function Units(a: int, n: nat): (r: set<int>)
    ensures forall u :: u in r <==> a <= u < a + n
  {
    if n == 0 then {} else Units(a, n - 1) + {a + n - 1}
  }

  lemma ExtendTiling(bs: set<int>, size: map<int, int>, core: set<int>, a: int, n: nat)
    requires Tiling(bs, size, core) && n >= 1 && forall u :: u in core ==> u < a
    ensures a !in bs && Tiling(bs + {a}, size[a := n], core + Units(a, n))
  {
    var size' := size[a := n];
    forall b | b in bs ensures b + size[b] <= a {
      assert b + size[b] - 1 in core;
    }
    forall u | u in core + Units(a, n) ensures exists c :: c in bs + {a} && c <= u < c + size'[c] {
      if u in core {
        var c :| c in bs && c <= u < c + size[c];
        assert c <= u < c + size'[c];
      } else {
        assert a <= u < a + size'[a];
      }
    }
  }

  // ------------------------------------------------------------------
  // The circular free list
  // ------------------------------------------------------------------

  /** The header words in memory, the free headers in address order starting
      with `base`, and the headers of all blocks, free or in use. */
  datatype Mem = Mem(ptr: map<int, int>, size: map<int, int>, fl: seq<int>, bs: set<int>)

  /** The header that follows position `i` on the circle. */
  function After(fl: seq<int>, i: int): int
    requires 0 <= i < |fl|
  {
    if i + 1 < |fl| then fl[i + 1] else fl[0]
  }

  predicate Sorted(fl: seq<int>) {
    forall i, j :: 0 <= i < j < |fl| ==> fl[i] < fl[j]
  }

  /** Following `ptr` goes round the list. */
  predicate Circular(fl: seq<int>, ptr: map<int, int>) {
    && (forall i :: 0 <= i < |fl| ==> fl[i] in ptr)
    && (forall i {:trigger After(fl, i)} :: 0 <= i < |fl| ==> ptr[fl[i]] == After(fl, i))
  }

  predicate FreeList(h: Mem, base: int) {
    && |h.fl| >= 1 && h.fl[0] == base
    && Sorted(h.fl) && Circular(h.fl, h.ptr)
    && (forall i :: 0 <= i < |h.fl| ==> h.fl[i] in h.size)
    && h.size[base] == 0
  }

  ghost predicate Heap(h: Mem, base: int, core: set<int>) {
    && FreeList(h, base)
    && Tiling(h.bs, h.size, core)
    && (forall a :: a in h.bs ==> base < a)
    && (forall i :: 1 <= i < |h.fl| ==> h.fl[i] in h.bs)
  }

  /** The free block at position `i` ends where the next one begins. */
  predicate Touches(h: Mem, i: int) {
    0 <= i < |h.fl| - 1 && h.fl[i] in h.size && h.fl[i] + h.size[h.fl[i]] == h.fl[i + 1]
  }

  /** Coalescing is complete: no two free blocks are adjacent. */
  ghost predicate Coalesced(h: Mem) {
    forall i :: 0 <= i < |h.fl| ==> !Touches(h, i)
  }

  /** Link the header `bp` into the list behind position `t`. */
  function Link(h: Mem, t: nat, bp: int): Mem
    requires t < |h.fl| && h.fl[t] in h.ptr
  {
    h.(ptr := h.ptr[bp := h.ptr[h.fl[t]]][h.fl[t] := bp],
       fl := h.fl[..t + 1] + [bp] + h.fl[t + 1..])
  }

  /** Absorb the free block after position `i` into the one at `i`. */
  function Absorb(h: Mem, i: nat): Mem
    requires i + 1 < |h.fl| && h.fl[i] in h.size && h.fl[i + 1] in h.size && h.fl[i + 1] in h.ptr
  {
    var a, b := h.fl[i], h.fl[i + 1];
    Mem(h.ptr[a := h.ptr[b]], h.size[a := h.size[a] + h.size[b]],
        h.fl[..i + 1] + h.fl[i + 2..], h.bs - {b})
  }

  lemma LinkKeepsCircle(fl: seq<int>, ptr: map<int, int>, t: nat, bp: int)
    requires Sorted(fl) && Circular(fl, ptr) && t < |fl| && bp !in fl
    ensures Circular(fl[..t + 1] + [bp] + fl[t + 1..], ptr[bp := ptr[fl[t]]][fl[t] := bp])
  {
    var fl' := fl[..t + 1] + [bp] + fl[t + 1..];
    var ptr' := ptr[bp := ptr[fl[t]]][fl[t] := bp];
    forall i | 0 <= i < |fl'| ensures fl'[i] in ptr' && ptr'[fl'[i]] == After(fl', i) {
      if i <= t {
        assert ptr[fl[i]] == After(fl, i);
      } else if i == t + 1 {
        assert ptr[fl[t]] == After(fl, t);
      } else {
        assert ptr[fl[i - 1]] == After(fl, i - 1);
      }
    }
  }

  lemma LinkKeepsList(h: Mem, base: int, t: nat, bp: int)
    requires FreeList(h, base) && bp in h.size && t < |h.fl| && h.fl[t] < bp
    requires t + 1 < |h.fl| ==> bp < h.fl[t + 1]
    ensures FreeList(Link(h, t, bp), base)
  {
    assert bp !in h.fl by {
      assert forall i :: 0 <= i <= t ==> h.fl[i] <= h.fl[t];
      assert forall i :: t < i < |h.fl| ==> h.fl[t + 1] <= h.fl[i];
    }
    LinkKeepsCircle(h.fl, h.ptr, t, bp);
    LinkKeepsOrder(h.fl, t, bp);
    hide Circular, Sorted;
    var h' := Link(h, t, bp);
    forall k | 0 <= k < |h'.fl| ensures h'.fl[k] in h.size {
      assert h'.fl[k] == if k <= t then h.fl[k] else if k == t + 1 then bp else h.fl[k - 1];
    }
  }

  lemma LinkKeepsOrder(fl: seq<int>, t: nat, bp: int)
    requires Sorted(fl) && t < |fl| && fl[t] < bp && (t + 1 < |fl| ==> bp < fl[t + 1])
    ensures Sorted(fl[..t + 1] + [bp] + fl[t + 1..])
  {
    var fl' := fl[..t + 1] + [bp] + fl[t + 1..];
    forall i, j | 0 <= i < j < |fl'| ensures fl'[i] < fl'[j] {
      if j == t + 1 {
        assert fl'[i] == fl[i] && fl[i] <= fl[t];
      } else if i == t + 1 {
        assert fl'[j] == fl[j - 1] && fl[t + 1] <= fl[j - 1];
      } else {
        assert fl[if i <= t then i else i - 1] < fl[if j <= t then j else j - 1];
      }
    }
  }

  lemma LinkTouches(h: Mem, t: nat, bp: int, k: nat)
    requires t < |h.fl| && h.fl[t] in h.ptr && k <= |h.fl| && (k < t || t + 1 < k)
    ensures Touches(Link(h, t, bp), k) <==> Touches(h, if k < t then k else k - 1)
  {
  }

  lemma LinkKeepsHeap(h: Mem, base: int, core: set<int>, t: nat, bp: int)
    requires Heap(h, base, core) && bp in h.bs && t < |h.fl| && h.fl[t] < bp
    requires t + 1 < |h.fl| ==> bp < h.fl[t + 1]
    ensures Heap(Link(h, t, bp), base, core)
  {
    assert bp in h.size;
    LinkKeepsList(h, base, t, bp);
    hide Tiling, FreeList;
    var h' := Link(h, t, bp);
    forall i | 1 <= i < |h'.fl| ensures h'.fl[i] in h.bs {
      assert h'.fl[i] == if i <= t then h.fl[i] else if i == t + 1 then bp else h.fl[i - 1];
    }
  }

  lemma UnlinkKeepsCircle(fl: seq<int>, ptr: map<int, int>, i: nat)
    requires Sorted(fl) && Circular(fl, ptr) && i + 1 < |fl|
    ensures Circular(fl[..i + 1] + fl[i + 2..], ptr[fl[i] := ptr[fl[i + 1]]])
  {
    var fl' := fl[..i + 1] + fl[i + 2..];
    var ptr' := ptr[fl[i] := ptr[fl[i + 1]]];
    forall k | 0 <= k < |fl'| ensures fl'[k] in ptr' && ptr'[fl'[k]] == After(fl', k) {
      if k < i {
        assert ptr[fl[k]] == After(fl, k);
      } else {
        assert ptr[fl[k + 1]] == After(fl, k + 1);
      }
    }
  }

  lemma UnlinkKeepsOrder(fl: seq<int>, i: nat)
    requires Sorted(fl) && i + 1 < |fl|
    ensures Sorted(fl[..i + 1] + fl[i + 2..])
  {
  }

  lemma AbsorbKeepsList(h: Mem, base: int, i: nat)
    requires FreeList(h, base) && 1 <= i < |h.fl| - 1
    ensures FreeList(Absorb(h, i), base)
  {
    UnlinkKeepsCircle(h.fl, h.ptr, i);
    UnlinkKeepsOrder(h.fl, i);
    assert h.fl[0] < h.fl[i];
    hide Circular, Sorted;
    var h' := Absorb(h, i);
    forall k | 0 <= k < |h'.fl| ensures h'.fl[k] in h'.size {
      assert h'.fl[k] == if k <= i then h.fl[k] else h.fl[k + 1];
    }
  }

  lemma AbsorbTouches(h: Mem, base: int, i: nat, k: nat)
    requires FreeList(h, base) && Touches(h, i) && i >= 1 && k < |h.fl| - 1
    ensures Touches(Absorb(h, i), k) <==> Touches(h, if k < i then k else k + 1)
  {
    var h' := Absorb(h, i);
    assert k + 1 < |h'.fl| ==> h'.fl[k + 1] == if k < i then h.fl[k + 1] else h.fl[k + 2];
  }

  lemma AbsorbKeepsHeap(h: Mem, base: int, core: set<int>, i: nat)
    requires Heap(h, base, core) && Touches(h, i)
    ensures i >= 1 && Heap(Absorb(h, i), base, core)
  {
    assert i >= 1;
    MergeTiling(h.bs, h.size, core, h.fl[i], h.fl[i + 1]);
    AbsorbKeepsList(h, base, i);
    hide Tiling;
    var h' := Absorb(h, i);
    forall k | 1 <= k < |h'.fl| ensures h'.fl[k] in h'.bs {
      assert h'.fl[k] == if k <= i then h.fl[k] else h.fl[k + 1];
    }
  }

  // ------------------------------------------------------------------
  // free
  // ------------------------------------------------------------------

  /** The last free header below `bp`: where `bp` belongs. */
  ghost function Slot(fl: seq<int>, bp: int): (t: nat)
    requires |fl| >= 1 && fl[0] < bp
    ensures t < |fl| && fl[t] < bp && (t + 1 < |fl| ==> bp <= fl[t + 1])
  {
    if fl[|fl| - 1] < bp then |fl| - 1 else Slot(fl[..|fl| - 1], bp)
  }

  /** Merge position `i` with the next free block if they touch. */
  function Settle(h: Mem, i: nat): Mem {
    if Touches(h, i) && h.fl[i + 1] in h.size && h.fl[i + 1] in h.ptr then Absorb(h, i) else h
  }

  /** free: link the block in, then merge with the upper and the lower
      neighbour where they touch. */
  function Freed(h: Mem, t: nat, bp: int): Mem
    requires t < |h.fl| && h.fl[t] in h.ptr
  {
    Settle(Settle(Link(h, t, bp), t + 1), t)
  }

  /** Linking a block into a coalesced list can make it touch only at its two
      new neighbours. */
  lemma LinkCoalesced(h: Mem, base: int, t: nat, bp: int)
    requires FreeList(h, base) && Coalesced(h) && t < |h.fl|
    ensures forall k :: 0 <= k < |Link(h, t, bp).fl| && k != t && k != t + 1 ==> !Touches(Link(h, t, bp), k)
  {
    var h' := Link(h, t, bp);
    forall k | 0 <= k < |h'.fl| && k != t && k != t + 1 ensures !Touches(h', k) {
      LinkTouches(h, t, bp, k);
    }
  }

  lemma AbsorbCoalesced(h: Mem, base: int, i: nat, but: int)
    requires FreeList(h, base) && 1 <= i && Touches(h, i)
    requires but < i && forall k :: 0 <= k < |h.fl| && k != i && k != but ==> !Touches(h, k)
    ensures forall k :: 0 <= k < |Absorb(h, i).fl| && k != but ==> !Touches(Absorb(h, i), k)
  {
    var h' := Absorb(h, i);
    forall k | 0 <= k < |h'.fl| && k != but ensures !Touches(h', k) {
      AbsorbTouches(h, base, i, k);
    }
  }

  lemma SettleIsHeap(h: Mem, base: int, core: set<int>, i: nat, but: int)
    requires Heap(h, base, core) && i < |h.fl| && but < i
    requires forall k :: 0 <= k < |h.fl| && k != i && k != but ==> !Touches(h, k)
    ensures var h' := Settle(h, i);
            && Heap(h', base, core)
            && (forall k :: 0 <= k < |h'.fl| && k != but ==> !Touches(h', k))
            && i < |h'.fl| && forall k :: 0 <= k <= i ==> h'.fl[k] == h.fl[k]
  {
    if Touches(h, i) {
      AbsorbKeepsHeap(h, base, core, i);
      AbsorbCoalesced(h, base, i, but);
    }
  }

  lemma FreedIsHeap(h: Mem, base: int, core: set<int>, t: nat, bp: int)
    requires Heap(h, base, core) && Coalesced(h) && bp in h.bs
    requires t < |h.fl| && h.fl[t] < bp && (t + 1 < |h.fl| ==> bp < h.fl[t + 1])
    ensures var h' := Freed(h, t, bp);
            && Heap(h', base, core) && Coalesced(h')
            && t < |h'.fl| && h'.fl[t] == h.fl[t]
  {
    var h1 := Link(h, t, bp);
    LinkKeepsHeap(h, base, core, t, bp);
    LinkCoalesced(h, base, t, bp);
    assert t + 1 < |h1.fl| && h1.fl[t] == h.fl[t];
    hide Tiling, FreeList, Touches, Absorb, Link, Settle;
    SettleIsHeap(h1, base, core, t + 1, t);
    SettleIsHeap(Settle(h1, t + 1), base, core, t, -1);
  }

  // ------------------------------------------------------------------
  // Blocks in use
  // ------------------------------------------------------------------

  /** The blocks handed out and not yet freed, with their sizes in units. */
  function Live(h: Mem): map<int, int> {
    map a | a in h.bs && a !in h.fl && a in h.size :: h.size[a]
  }

  lemma LinkLive(h: Mem, t: nat, bp: int)
    requires t < |h.fl| && h.fl[t] in h.ptr
    ensures Live(Link(h, t, bp)) == Live(h) - {bp}
  {
    var h' := Link(h, t, bp);
    forall a ensures a in h'.fl <==> a in h.fl || a == bp {
      assert h.fl == h.fl[..t + 1] + h.fl[t + 1..];
    }
  }

  /** Membership after dropping one position of a sorted list. */
  lemma DropMember(fl: seq<int>, i: nat, a: int)
    requires Sorted(fl) && i + 1 < |fl|
    ensures a in fl[..i + 1] + fl[i + 2..] <==> a in fl && a != fl[i + 1]
  {
    if a in fl && a != fl[i + 1] {
      var k :| 0 <= k < |fl| && fl[k] == a;
      var fl' := fl[..i + 1] + fl[i + 2..];
      assert fl'[if k <= i then k else k - 1] == a;
    }
  }

  lemma AbsorbLive(h: Mem, base: int, i: nat)
    requires FreeList(h, base) && i + 1 < |h.fl|
    ensures Live(Absorb(h, i)) == Live(h)
  {
    forall a ensures a in Absorb(h, i).fl <==> a in h.fl && a != h.fl[i + 1] { DropMember(h.fl, i, a); }
  }

  lemma FreedLive(h: Mem, base: int, core: set<int>, t: nat, bp: int)
    requires Heap(h, base, core) && bp in h.bs
    requires t < |h.fl| && h.fl[t] < bp && (t + 1 < |h.fl| ==> bp < h.fl[t + 1])
    ensures Live(Freed(h, t, bp)) == Live(h) - {bp}
  {
    var h1 := Link(h, t, bp);
    LinkLive(h, t, bp);
    LinkKeepsHeap(h, base, core, t, bp);
    hide Tiling, Live, Link;
    if Touches(h1, t + 1) {
      AbsorbLive(h1, base, t + 1);
      AbsorbKeepsHeap(h1, base, core, t + 1);
    }
    var h2 := Settle(h1, t + 1);
    if Touches(h2, t) { AbsorbLive(h2, base, t); }
  }

  /** One merge in terms of header words. */
  lemma SettleWords(h: Mem, i: nat)
    requires i < |h.fl| && forall k :: 0 <= k < |h.fl| ==> h.fl[k] in h.ptr && h.fl[k] in h.size
    ensures var h' := Settle(h, i);
            && (Touches(h, i) ==> h'.ptr == h.ptr[h.fl[i] := h.ptr[h.fl[i + 1]]]
                                  && h'.size == h.size[h.fl[i] := h.size[h.fl[i]] + h.size[h.fl[i + 1]]])
            && (!Touches(h, i) ==> h' == h)
  {
  }

  /** After linking, position `t + 1` touches the next block exactly when the
      first test of free succeeds. */
  lemma UpperTest(h: Mem, base: int, core: set<int>, t: nat, bp: int)
    requires Heap(h, base, core) && bp in h.bs && t < |h.fl| && h.fl[t] < bp
    ensures h.ptr[h.fl[t]] in h.ptr && h.ptr[h.fl[t]] in h.size
    ensures Touches(Link(h, t, bp), t + 1) <==> bp + h.size[bp] == h.ptr[h.fl[t]]
    ensures t + 1 < |h.fl| ==> Link(h, t, bp).fl[t + 2] == h.ptr[h.fl[t]] == h.fl[t + 1] > h.fl[t]
    ensures Link(h, t, bp).fl[t] == h.fl[t] && Link(h, t, bp).fl[t + 1] == bp
  {
    assert h.ptr[h.fl[t]] == After(h.fl, t);
    assert h.size[bp] >= 1;
  }

  /** The header words after the two tests and their assignments in free. */
  function SplicedSize(ptr: map<int, int>, size: map<int, int>, p: int, bp: int): map<int, int>
    requires p in ptr && p in size && bp in size && ptr[p] in size
  {
    var size1 := if bp + size[bp] == ptr[p] then size[bp := size[bp] + size[ptr[p]]] else size;
    if p + size[p] == bp then size1[p := size1[p] + size1[bp]] else size1
  }

  function SplicedPtr(ptr: map<int, int>, size: map<int, int>, p: int, bp: int): map<int, int>
    requires p in ptr && p in size && bp in size && ptr[p] in ptr
  {
    var ptr1 := ptr[bp := if bp + size[bp] == ptr[p] then ptr[ptr[p]] else ptr[p]];
    ptr1[p := if p + size[p] == bp then ptr1[bp] else bp]
  }

  /** The header words that the assignments of free leave behind. */
  lemma FreedWords(h: Mem, base: int, core: set<int>, t: nat, bp: int)
    requires Heap(h, base, core) && bp in h.bs
    requires t < |h.fl| && h.fl[t] < bp && (t + 1 < |h.fl| ==> bp < h.fl[t + 1])
    ensures h.ptr[h.fl[t]] in h.ptr && h.ptr[h.fl[t]] in h.size
    ensures Freed(h, t, bp).ptr == SplicedPtr(h.ptr, h.size, h.fl[t], bp)
    ensures Freed(h, t, bp).size == SplicedSize(h.ptr, h.size, h.fl[t], bp)
  {
    hide Tiling, Circular, Sorted, FreeList, Heap, Settle, Link;
    UpperWords(h, base, core, t, bp);
    var p, h2 := h.fl[t], Settle(Link(h, t, bp), t + 1);
    SettleWords(h2, t);
    assert Touches(h2, t) <==> p + h.size[p] == bp;
  }

  /** Every header on the list has its two words. */
  lemma HaveWords(h: Mem, base: int, core: set<int>)
    requires Heap(h, base, core)
    ensures forall k :: 0 <= k < |h.fl| ==> h.fl[k] in h.ptr && h.fl[k] in h.size
    ensures forall a :: a in h.bs ==> a in h.size
  {
  }

  /** The words and the list after the first of the two merges. */
  lemma UpperWords(h: Mem, base: int, core: set<int>, t: nat, bp: int)
    requires Heap(h, base, core) && bp in h.bs
    requires t < |h.fl| && h.fl[t] < bp && (t + 1 < |h.fl| ==> bp < h.fl[t + 1])
    ensures h.fl[t] in h.ptr && h.fl[t] in h.size && bp in h.size && h.ptr[h.fl[t]] in h.ptr && h.ptr[h.fl[t]] in h.size
    ensures var p := h.fl[t];
            var h2 := Settle(Link(h, t, bp), t + 1);
            var up := bp + h.size[bp] == h.ptr[p];
            && t + 1 < |h2.fl| && h2.fl[t] == p && h2.fl[t + 1] == bp
            && (forall k :: 0 <= k < |h2.fl| ==> h2.fl[k] in h2.ptr && h2.fl[k] in h2.size)
            && h2.ptr == h.ptr[p := bp][bp := if up then h.ptr[h.ptr[p]] else h.ptr[p]]
            && h2.size == if up then h.size[bp := h.size[bp] + h.size[h.ptr[p]]] else h.size
  {
    hide Tiling, Circular, Sorted, FreeList, Heap, Settle;
    HaveWords(h, base, core);
    var h1 := Link(h, t, bp);
    LinkKeepsHeap(h, base, core, t, bp);
    UpperTest(h, base, core, t, bp);
    HaveWords(h1, base, core);
    SettleWords(h1, t + 1);
    SettledList(h1, base, core, t + 1);
  }

  lemma SettledList(h: Mem, base: int, core: set<int>, i: nat)
    requires Heap(h, base, core) && i < |h.fl|
    ensures var h' := Settle(h, i);
            && i < |h'.fl| && (forall k :: 0 <= k <= i ==> h'.fl[k] == h.fl[k])
            && forall k :: 0 <= k < |h'.fl| ==> h'.fl[k] in h'.ptr && h'.fl[k] in h'.size
  {
    hide Tiling, Circular, Sorted;
    if Touches(h, i) { AbsorbKeepsHeap(h, base, core, i); }
    HaveWords(Settle(h, i), base, core);
  }

  /** Some free block has at least `n` units. */
  ghost predicate Roomy(h: Mem, n: int) {
    exists i :: 0 <= i < |h.fl| && h.fl[i] in h.size && h.size[h.fl[i]] >= n
  }

  lemma FreedRoomy(h: Mem, base: int, core: set<int>, t: nat, bp: int)
    requires Heap(h, base, core) && bp in h.bs
    requires t < |h.fl| && h.fl[t] < bp && (t + 1 < |h.fl| ==> bp < h.fl[t + 1])
    ensures Roomy(Freed(h, t, bp), h.size[bp])
  {
    var h1 := Link(h, t, bp);
    LinkKeepsHeap(h, base, core, t, bp);
    if Touches(h1, t + 1) { AbsorbKeepsHeap(h1, base, core, t + 1); }
    var h2 := Settle(h1, t + 1);
    assert h2.fl[t + 1] == bp && h2.size[bp] >= h.size[bp];
    var h3 := Settle(h2, t);
    if Touches(h2, t) {
      assert h3.fl[t] == h2.fl[t] && h3.size[h2.fl[t]] >= h2.size[bp];
    } else {
      assert h3.fl[t + 1] == bp;
    }
  }

  // ------------------------------------------------------------------
  // malloc
  // ------------------------------------------------------------------

  /** `nunits`: 32-bit arithmetic, so `nbytes + 7` can wrap. */
  function NUnits(nbytes: nat): (n: nat)
    ensures n >= 1
  {
    (nbytes + HEADER - 1) % TWO32 / HEADER + 1
  }

  /** The block holds the requested bytes exactly when the sum does not wrap, and then
      one unit less would not hold them. */
  lemma RequestFits(nbytes: nat)
    requires nbytes < TWO32
    ensures HEADER * (NUnits(nbytes) - 1) >= nbytes <==> nbytes + HEADER - 1 < TWO32
    ensures nbytes + HEADER - 1 < TWO32 ==> HEADER * (NUnits(nbytes) - 2) < nbytes
  {
  }

  /** Hand out the whole free block at position `i + 1`. */
  function TakeWhole(h: Mem, i: nat): Mem
    requires i + 1 < |h.fl| && h.fl[i + 1] in h.ptr
  {
    h.(ptr := h.ptr[h.fl[i] := h.ptr[h.fl[i + 1]]], fl := h.fl[..i + 1] + h.fl[i + 2..])
  }

  /** Hand out the last `n` units of the free block at position `i`. */
  function TakeTail(h: Mem, i: nat, n: nat): Mem
    requires i < |h.fl| && h.fl[i] in h.size
  {
    var a := h.fl[i];
    var q := a + h.size[a] - n;
    h.(size := h.size[a := h.size[a] - n][q := n], bs := h.bs + {q})
  }

  /** Distinct free blocks lie apart. */
  lemma FreeApart(h: Mem, base: int, core: set<int>, i: nat, j: nat)
    requires Heap(h, base, core) && i < j < |h.fl|
    ensures h.fl[i] + h.size[h.fl[i]] <= h.fl[j]
  {
    assert h.fl[i] < h.fl[j];
  }

  lemma TakeWholeIsHeap(h: Mem, base: int, core: set<int>, i: nat)
    requires Heap(h, base, core) && Coalesced(h) && i + 1 < |h.fl|
    ensures Heap(TakeWhole(h, i), base, core) && Coalesced(TakeWhole(h, i))
    ensures h.fl[i + 1] !in Live(h)
    ensures Live(TakeWhole(h, i)) == Live(h)[h.fl[i + 1] := h.size[h.fl[i + 1]]]
  {
    TakeWholeKeeps(h, base, core, i);
    TakeWholeLive(h, base, core, i);
    TakeWholeCoalesced(h, base, core, i);
  }

  lemma TakeWholeKeeps(h: Mem, base: int, core: set<int>, i: nat)
    requires Heap(h, base, core) && i + 1 < |h.fl|
    ensures Heap(TakeWhole(h, i), base, core)
  {
    UnlinkKeepsCircle(h.fl, h.ptr, i);
    UnlinkKeepsOrder(h.fl, i);
    hide Tiling, Circular, Sorted;
    var h' := TakeWhole(h, i);
    assert forall k :: 0 <= k < |h'.fl| ==> h'.fl[k] == h.fl[if k <= i then k else k + 1];
  }

  lemma TakeWholeLive(h: Mem, base: int, core: set<int>, i: nat)
    requires Heap(h, base, core) && i + 1 < |h.fl|
    ensures h.fl[i + 1] !in Live(h)
    ensures Live(TakeWhole(h, i)) == Live(h)[h.fl[i + 1] := h.size[h.fl[i + 1]]]
  {
    HaveWords(h, base, core);
    hide Tiling, Circular;
    var h' := TakeWhole(h, i);
    forall a ensures a in h'.fl <==> a in h.fl && a != h.fl[i + 1] { DropMember(h.fl, i, a); }
  }

  lemma TakeWholeCoalesced(h: Mem, base: int, core: set<int>, i: nat)
    requires Heap(h, base, core) && Coalesced(h) && i + 1 < |h.fl|
    ensures Coalesced(TakeWhole(h, i))
  {
    HaveWords(h, base, core);
    hide Tiling, Circular;
    var h' := TakeWhole(h, i);
    forall k | 0 <= k < |h'.fl| ensures !Touches(h', k) {
      if k == i && i + 2 < |h.fl| {
        FreeApart(h, base, core, i, i + 1);
        assert h'.fl[i + 1] == h.fl[i + 2] > h.fl[i + 1];
      } else if k < i {
        assert !Touches(h, k);
      } else {
        assert !Touches(h, k + 1);
      }
    }
  }

  lemma TakeTailIsHeap(h: Mem, base: int, core: set<int>, i: nat, n: nat)
    requires Heap(h, base, core) && Coalesced(h) && 1 <= i < |h.fl| && 1 <= n < h.size[h.fl[i]]
    ensures Heap(TakeTail(h, i, n), base, core) && Coalesced(TakeTail(h, i, n))
    ensures var q := h.fl[i] + h.size[h.fl[i]] - n;
            && q !in Live(h)
            && Live(TakeTail(h, i, n)) == Live(h)[q := n]
  {
    TailIsNew(h, base, core, i, n);
    TakeTailKeeps(h, base, core, i, n);
    hide Tiling, FreeList;
    HaveWords(h, base, core);
    var h' := TakeTail(h, i, n);
    forall k | 0 <= k < |h'.fl| ensures !Touches(h', k) {
      if k == i && i + 1 < |h.fl| { FreeApart(h, base, core, i, i + 1); }
      assert !Touches(h, k);
    }
  }

  /** The header of the tail lies inside the block, so it is no header yet. */
  lemma TailIsNew(h: Mem, base: int, core: set<int>, i: nat, n: nat)
    requires Heap(h, base, core) && 1 <= i < |h.fl| && 1 <= n < h.size[h.fl[i]]
    ensures var q := h.fl[i] + h.size[h.fl[i]] - n; q !in h.bs && q !in h.fl && q != base && base < q
  {
    SplitTiling(h.bs, h.size, core, h.fl[i], n);
    hide Tiling, Circular;
    assert h.fl[0] < h.fl[i];
    var q := h.fl[i] + h.size[h.fl[i]] - n;
    forall k | 0 <= k < |h.fl| ensures h.fl[k] != q { }
  }

  lemma TakeTailKeeps(h: Mem, base: int, core: set<int>, i: nat, n: nat)
    requires Heap(h, base, core) && 1 <= i < |h.fl| && 1 <= n < h.size[h.fl[i]]
    ensures Heap(TakeTail(h, i, n), base, core)
  {
    TailIsNew(h, base, core, i, n);
    SplitTiling(h.bs, h.size, core, h.fl[i], n);
    hide Tiling, Circular;
    assert h.fl[0] < h.fl[i];
  }

  function CoreUnits(nu: nat): nat {
    if nu < MIN_CORE then MIN_CORE else nu
  }

  /** morecore multiplies in 32 bits as well: sbrk is asked for all the units that the
      header will claim except for these eight lengths, whose product is 2^32. */
  lemma RequestReaches(nbytes: nat)
    requires nbytes < TWO32
    ensures HEADER * CoreUnits(NUnits(nbytes)) % TWO32 == HEADER * CoreUnits(NUnits(nbytes)) <==>
            !(TWO32 - 15 <= nbytes <= TWO32 - 8)
  {
  }

  /** A new stretch of core enters as a block in use. */
  lemma AddCoreIsHeap(h: Mem, base: int, core: set<int>, a: int, n: nat)
    requires Heap(h, base, core) && Coalesced(h) && n >= 1
    requires base < a && forall u :: u in core ==> u < a
    ensures var h' := h.(size := h.size[a := n], bs := h.bs + {a});
            && Heap(h', base, core + Units(a, n)) && Coalesced(h')
            && a !in Live(h) && Live(h') == Live(h)[a := n]
  {
    ExtendTiling(h.bs, h.size, core, a, n);
    assert a !in h.fl;
    var h' := h.(size := h.size[a := n], bs := h.bs + {a});
    forall k | 0 <= k < |h'.fl| ensures !Touches(h', k) { assert !Touches(h, k); }
  }

  /** Every free header is met on the way round from position `f`. */
  function At(fl: seq<int>, f: nat, j: nat): int
    requires f < |fl| && j <= |fl|
  {
    fl[Pos(fl, f, j)]
  }

  function Pos(fl: seq<int>, f: nat, j: nat): (k: nat)
    requires f < |fl| && j <= |fl|
    ensures k < |fl|
  {
    if f + j < |fl| then f + j else f + j - |fl|
  }

  lemma GoRound(fl: seq<int>, f: nat, e: nat) returns (j: nat)
    requires f < |fl| && e < |fl|
    ensures 1 <= j <= |fl| && Pos(fl, f, j) == e
  {
    j := if e > f then e - f else e - f + |fl|;
  }

  /** A full circle of too small blocks means there is no room at all. */
  lemma FullCircle(h: Mem, f: nat, n: int)
    requires f < |h.fl| && forall i :: 0 <= i < |h.fl| ==> h.fl[i] in h.size
    requires forall j :: 1 <= j <= |h.fl| ==> h.size[At(h.fl, f, j)] < n
    ensures !Roomy(h, n)
  {
    forall e | 0 <= e < |h.fl| ensures h.size[h.fl[e]] < n {
      var j := GoRound(h.fl, f, e);
      assert At(h.fl, f, j) == h.fl[e];
    }
  }

  lemma NodeFacts(h: Mem, base: int, core: set<int>, i: nat)
    requires Heap(h, base, core) && i + 1 < |h.fl|
    ensures h.fl[i] in h.fl && h.fl[i] >= base && h.fl[i + 1] > base
    ensures h.fl[i + 1] in h.size && h.fl[i + 1] in h.ptr && h.fl[i] in h.ptr
  {
    assert h.fl[0] < h.fl[i + 1];
  }

  lemma TakeWholeWords(h: Mem, i: nat)
    requires i + 1 < |h.fl| && h.fl[i + 1] in h.ptr
    ensures var h' := TakeWhole(h, i);
            && h'.ptr == h.ptr[h.fl[i] := h.ptr[h.fl[i + 1]]] && h'.size == h.size && h'.bs == h.bs
            && h.fl[i] in h'.fl
  {
    assert TakeWhole(h, i).fl[i] == h.fl[i];
  }

  lemma TakeTailWords(h: Mem, i: nat, n: nat)
    requires i < |h.fl| && h.fl[i] in h.size
    ensures var h' := TakeTail(h, i, n);
            var q := h.fl[i] + h.size[h.fl[i]] - n;
            && h'.ptr == h.ptr && h'.fl == h.fl
            && h'.size == h.size[h.fl[i] := h.size[h.fl[i]] - n][q := n]
  {
  }

  lemma RoomHere(h: Mem, k: nat, n: nat)
    requires k < |h.fl| && h.fl[k] in h.size && h.size[h.fl[k]] >= n
    ensures Roomy(h, n)
  {
  }

  lemma LiveFacts(h: Mem, base: int, core: set<int>, bp: int)
    requires Heap(h, base, core) && bp in Live(h)
    ensures bp in h.bs && bp !in h.fl && bp in h.size && Live(h)[bp] == h.size[bp]
  {
  }

  /** What free relies on and what its assignments amount to. */
  lemma FreeFacts(h: Mem, base: int, core: set<int>, t: nat, bp: int)
    requires base > 0 && Heap(h, base, core) && Coalesced(h) && bp in Live(h)
    requires t < |h.fl| && h.fl[t] < bp && (t + 1 < |h.fl| ==> bp < h.fl[t + 1])
    ensures var p := h.fl[t];
            && p in h.ptr && p in h.size && bp in h.size && h.ptr[p] in h.ptr && h.ptr[p] in h.size
            && p != bp && h.size[p] >= 0 && h.size[bp] > 0 && h.ptr[p] != bp
    ensures var h' := Freed(h, t, bp);
            && h'.ptr == SplicedPtr(h.ptr, h.size, h.fl[t], bp) && h'.size == SplicedSize(h.ptr, h.size, h.fl[t], bp)
            && Heap(h', base, core) && Coalesced(h') && Live(h') == Live(h) - {bp} && Roomy(h', h.size[bp])
            && h.fl[t] in h'.fl && h.fl[t] != 0
  {
    hide Freed, Coalesced, SplicedPtr, SplicedSize, Roomy;
    LiveFacts(h, base, core, bp);
    FreedWords(h, base, core, t, bp);
    FreedIsHeap(h, base, core, t, bp);
    FreedLive(h, base, core, t, bp);
    FreedRoomy(h, base, core, t, bp);
    assert h.ptr[h.fl[t]] == After(h.fl, t);
    assert t > 0 ==> h.fl[0] < h.fl[t];
  }

  /** Next fit: the `j`-th free block after `freep`, around the circle, is the first of at
      least `n` units; its last `n` units are handed out, and the search goes on next time
      from the block in front of it. */
  predicate NextFit(h: Mem, freep: int, n: nat, ap: int, freep': int, f: nat, j: nat) {
    && f < |h.fl| && h.fl[f] == freep && 1 <= j <= |h.fl|
    && (forall i :: 1 <= i <= j ==> At(h.fl, f, i) in h.size)
    && (forall i :: 1 <= i < j ==> h.size[At(h.fl, f, i)] < n)
    && h.size[At(h.fl, f, j)] >= n && ap == At(h.fl, f, j) + h.size[At(h.fl, f, j)] - n + 1
    && freep' == At(h.fl, f, j - 1)
  }

  class Allocator {
    const base: int
    var ptr: map<int, int>    // the `s.ptr` word of each header
    var size: map<int, int>   // the `s.size` word of each header
    var freep: int            // 0 before the first malloc
    ghost var fl: seq<int>
    ghost var bs: set<int>
    ghost var core: set<int>  // all units obtained from sbrk

    ghost function State(): Mem
      reads this
    {
      Mem(ptr, size, fl, bs)
    }

    ghost function InUse(): map<int, int>
      reads this
    {
      Live(State())
    }

    ghost predicate Valid()
      reads this
    {
      && base > 0
      && (freep == 0 ==> fl == [] && bs == {} && core == {})
      && (freep != 0 ==> Heap(State(), base, core) && Coalesced(State()) && freep in fl)
    }

    constructor (base: int)
      requires base > 0
      ensures Valid() && InUse() == map[] && core == {} && this.base == base
    {
      this.base := base;
      ptr, size, freep, fl, bs, core := map[], map[], 0, [], {}, {};
    }

    /** The search loop of free. */
    method FindSlot(bp: int) returns (p: int, ghost t: nat)
      requires Valid() && freep != 0 && bp in bs && bp !in fl
      ensures t < |fl| && p == fl[t] && fl[t] < bp && (t + 1 < |fl| ==> bp < fl[t + 1])
    {
      hide Tiling, Coalesced;
      p := freep;
      t := Slot(fl, bp);
      ghost var k :| 0 <= k < |fl| && fl[k] == p;
      assert t + 1 < |fl| ==> bp < fl[t + 1] by { assert t + 1 < |fl| ==> fl[t + 1] in fl; }
      while !(bp > p && bp < ptr[p])
        invariant 0 <= k < |fl| && p == fl[k]
        decreases if k <= t then t - k else t - k + |fl|
      {
        assert ptr[fl[k]] == After(fl, k);
        if p >= ptr[p] && (bp > p || bp < ptr[p]) {
          break;
        }
        assert k != t;
        p := ptr[p];
        k := if k + 1 < |fl| then k + 1 else 0;
      }
      assert ptr[fl[k]] == After(fl, k);
      assert k == t;
    }

    /** The two tests of free and their assignments. */
    method Splice(p: int, bp: int)
      requires p in ptr && p in size && bp in size && ptr[p] in ptr && ptr[p] in size
      requires p != bp && size[p] >= 0 && size[bp] > 0 && ptr[p] != bp
      modifies this`ptr, this`size
      ensures ptr == SplicedPtr(old(ptr), old(size), p, bp)
      ensures size == SplicedSize(old(ptr), old(size), p, bp)
    {
      if bp + size[bp] == ptr[p] {
        size := size[bp := size[bp] + size[ptr[p]]];
        ptr := ptr[bp := ptr[ptr[p]]];
      } else {
        ptr := ptr[bp := ptr[p]];
      }
      if p + size[p] == bp {
        size := size[p := size[p] + size[bp]];
        ptr := ptr[p := ptr[bp]];
      } else {
        ptr := ptr[p := bp];
      }
    }

    method Free(ap: int)
      requires Valid() && ap - 1 in InUse()
      modifies this
      ensures Valid() && freep != 0 && core == old(core)
      ensures InUse() == old(InUse()) - {ap - 1}
      ensures Roomy(State(), old(InUse()[ap - 1]))
    {
      hide Freed, Heap, Coalesced, SplicedPtr, SplicedSize, Roomy;
      var bp := ap - 1;
      LiveFacts(State(), base, core, bp);
      var p, t := FindSlot(bp);
      ghost var h0 := State();
      FreeFacts(h0, base, core, t, bp);
      Splice(p, bp);
      freep := p;
      ghost var h := Freed(h0, t, bp);
      fl, bs := h.fl, h.bs;
    }

    /** Ask sbrk for at least MIN_CORE units and put them on the free list.
        `grant` is sbrk's answer: -1, the NULL with which the kernel refuses, or the start
        of the new units.  NULL is taken for a grant, and the header is stored at address
        0: `stray` says so. */
    method MoreCore(nu: nat, grant: int) returns (q: int, stray: bool)
      requires Valid() && freep != 0 && Fresh(grant)
      modifies this
      ensures Valid() && freep != 0 && InUse() == old(InUse())
      ensures (q == 0 <==> grant == -1 || grant == 0) && (stray <==> grant == 0)
      ensures q == 0 ==> State() == old(State()) && freep == old(freep) && core == old(core)
      ensures q != 0 ==> q == freep && Roomy(State(), nu) && core == old(core) + Units(grant, CoreUnits(nu))
      ensures CoreUnits(nu) == if nu < 4096 then 4096 else nu
    {
      hide Heap, Coalesced, Live, Units;
      var n := if nu < MIN_CORE then MIN_CORE else nu;
      if grant == -1 {
        return 0, false;
      }
      if grant == 0 {
        return 0, true;
      }
      stray := false;
      AddCoreIsHeap(State(), base, core, grant, n);
      size := size[grant := n];
      bs, core := bs + {grant}, core + Units(grant, n);
      assert freep in fl;
      label before: assert Valid() && InUse() == old(InUse())[grant := n];
      Free(grant + 1);
      assert old@before(InUse())[grant] == n;
      assert old(InUse())[grant := n] - {grant} == old(InUse());
      q := freep;
    }

    ghost predicate Fresh(grant: int)
      reads this
    {
      grant == -1 || grant == 0 || (grant > base && forall u :: u in core ==> u < grant)
    }

    /** Carve `n` units from the free block `p`, which `prevp` precedes. */
    method Take(prevp: int, p: int, n: nat, ghost i: nat) returns (ap: int)
      requires Valid() && freep != 0 && n >= 1
      requires i + 1 < |fl| && prevp == fl[i] && p == fl[i + 1] && size[p] >= n
      modifies this
      ensures Valid() && core == old(core) && ap != 0
      ensures ap - 1 !in old(InUse()) && InUse() == old(InUse())[ap - 1 := n]
      ensures p in old(size) && ap - 1 == p + old(size)[p] - n && freep == prevp
    {
      hide Tiling, FreeList, Live, Coalesced, TakeWhole, TakeTail;
      NodeFacts(State(), base, core, i);
      var q := p;
      if size[p] == n {
        TakeWholeIsHeap(State(), base, core, i);
        TakeWholeWords(State(), i);
        ghost var h := TakeWhole(State(), i);
        ptr := ptr[prevp := ptr[p]];
        fl := h.fl;
      } else {
        TakeTailIsHeap(State(), base, core, i + 1, n);
        TakeTailWords(State(), i + 1, n);
        ghost var h := TakeTail(State(), i + 1, n);
        size := size[p := size[p] - n];
        q := p + size[p];
        size := size[q := n];
        bs := h.bs;
      }
      freep := prevp;
      ap := q + 1;
    }

    /** Where the scan stands: `p` is the `j`-th header after `freep`, and
        those before it are too small. */
    ghost predicate Scanning(prevp: int, p: int, f: int, j: int, n: int)
      reads this
    {
      && 0 <= f < |fl| && fl[f] == freep && 1 <= j <= |fl|
      && prevp == At(fl, f, j - 1) && p == At(fl, f, j)
      && forall i :: 1 <= i < j ==> At(fl, f, i) in size && size[At(fl, f, i)] < n
    }

    method Init()
      requires Valid()
      modifies this
      ensures Valid() && freep != 0 && core == old(core) && InUse() == old(InUse())
      ensures old(freep) != 0 ==> State() == old(State()) && freep == old(freep)
      ensures forall n :: n >= 1 ==> (Roomy(State(), n) <==> Roomy(old(State()), n))
    {
      if freep == 0 {
        ptr, size, freep, fl := ptr[base := base], size[base := 0], base, [base];
        assert ptr[fl[0]] == After(fl, 0);
      }
    }

    /** One turn of the scan: facts about the header it looks at. */
    lemma ScanFacts(prevp: int, p: int, f: nat, j: nat, n: nat)
      requires Valid() && freep != 0 && n >= 1 && Scanning(prevp, p, f, j, n)
      ensures p in size && p in ptr && (p == freep <==> j == |fl|)
      ensures size[p] >= n ==> var k := Pos(fl, f, j); k >= 1 && prevp == fl[k - 1] && p == fl[k]
      ensures size[p] < n && j < |fl| ==> Scanning(p, ptr[p], f, j + 1, n)
      ensures size[p] < n && j == |fl| ==> !Roomy(State(), n)
    {
      hide Tiling, Coalesced, Live;
      var k := Pos(fl, f, j);
      assert p == fl[k];
      assert ptr[fl[k]] == After(fl, k);
      if size[p] < n && j == |fl| { FullCircle(State(), f, n); }
    }

    /** malloc, with sbrk's answer passed in for the one time it is asked. */
    method Malloc(nbytes: nat, grant: int) returns (ap: int, calls: nat, stray: bool)
      requires Valid() && Fresh(grant)
      modifies this
      ensures Valid() && calls <= 1
      ensures ap != 0 ==> ap - 1 !in old(InUse()) && InUse() == old(InUse())[ap - 1 := NUnits(nbytes)]
      ensures ap == 0 ==> InUse() == old(InUse()) && calls == 1 && (grant == -1 || grant == 0)
      ensures stray <==> calls == 1 && grant == 0
      ensures calls == 1 <==> !Roomy(old(State()), NUnits(nbytes))
      ensures calls == 0 ==> exists f, j :: NextFit(old(State()), old(freep), NUnits(nbytes), ap, freep, f, j)
      ensures core == if calls == 1 && ap != 0
                      then old(core) + Units(grant, CoreUnits(NUnits(nbytes))) else old(core)
    {
      hide Tiling, FreeList, Coalesced, Live, Roomy, NUnits, Scanning, Units;
      var nunits := NUnits(nbytes);
      Init();
      var prevp := freep;
      ghost var f, j := NewScan(freep, nunits);
      var p := ptr[prevp];
      ghost var asked := Roomy(State(), nunits);
      ghost var h0, f0 := State(), freep;
      calls, stray := 0, false;
      while true
        invariant Valid() && freep != 0 && InUse() == old(InUse()) && calls <= 1
        invariant 0 <= f < |fl| && 1 <= j <= |fl| && Scanning(prevp, p, f, j, nunits)
        invariant calls == 0 ==> core == old(core) && asked == Roomy(State(), nunits) && State() == h0 && freep == f0
        invariant calls == 1 ==> !asked && Roomy(State(), nunits) && grant != -1 && grant != 0
                                 && core == old(core) + Units(grant, CoreUnits(nunits))
        invariant asked <==> Roomy(old(State()), nunits)
        invariant (calls == 0 ==> Fresh(grant)) && !stray
        decreases 1 - calls, |fl| - j
      {
        ScanFacts(prevp, p, f, j, nunits);
        if size[p] >= nunits {
          assert asked || calls == 1 by { RoomHere(State(), Pos(fl, f, j), nunits); }
          if calls == 0 { WasRunning(old(State()), old(freep), h0, f0, nunits); }
          ScannedAll(prevp, p, f, j, nunits);
          ap := Take(prevp, p, nunits, Pos(fl, f, j) - 1);
          assert calls == 0 ==> NextFit(h0, f0, nunits, ap, freep, f, j);
          return;
        }
        if p == freep {
          p, stray := MoreCore(nunits, grant);
          calls := calls + 1;
          if p == 0 {
            return 0, calls, stray;
          }
          f, j := NewScan(p, nunits);
        } else {
          j := j + 1;
        }
        prevp, p := p, ptr[p];
      }
    }

    /** Nothing can be taken before the first block has been asked for. */
    lemma WasRunning(h: Mem, fp: int, h0: Mem, f0: int, n: nat)
      requires fp == 0 ==> h.fl == []
      requires Roomy(h, n)
      requires fp != 0 ==> h0 == h && f0 == fp
      ensures fp != 0 && h0 == h && f0 == fp
    {
    }

    lemma ScannedAll(prevp: int, p: int, f: nat, j: nat, n: nat)
      requires Valid() && freep != 0 && Scanning(prevp, p, f, j, n) && p in size
      ensures f < |fl| && fl[f] == freep && 1 <= j <= |fl| && prevp == At(fl, f, j - 1) && p == At(fl, f, j)
      ensures forall i :: 1 <= i <= j ==> At(fl, f, i) in size
      ensures forall i :: 1 <= i < j ==> size[At(fl, f, i)] < n
    {
      hide Tiling, Coalesced, Live;
    }

    lemma NewScan(p: int, n: nat) returns (f: nat, j: nat)
      requires Valid() && freep != 0 && p == freep
      ensures p in ptr && j == 1 <= |fl| && f < |fl| && Scanning(p, ptr[p], f, 1, n)
    {
      f :| 0 <= f < |fl| && fl[f] == freep;
      j := 1;
      assert ptr[fl[f]] == After(fl, f);
    }
  }
}
