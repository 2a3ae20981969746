/** The loops of kernel/mem/pgtab.c over physical memory. */
module AddressSpaceCode {
  import opened Frames
  import opened AddressSpace

  ghost function Elems(s: seq<nat>): set<nat> { set x | x in s }

  /** The frames of `free0` are those still free and those now owned. */
  ghost predicate Split(free0: seq<nat>, free: seq<nat>, own: Owner) {
    && (forall f :: f in free0 <==> f in own || f in free)
    && (forall f :: f in free ==> f !in own)
  }

  lemma SplitTake(mem: Memory, free0: seq<nat>, free: seq<nat>, own: Owner, r: Role)
    requires Split(free0, free, own) && Listable(mem, free) && free != []
    ensures Split(free0, free[1..], own[free[0] := r]) && free[0] !in own && free[0] !in free[1..]
    ensures own.Keys + {free[0]} <= Elems(free0)
  {
    assert free == [free[0]] + free[1..];
  }

  lemma ApartFewer(mem: Memory, d: nat, fs: set<nat>, gs: set<nat>)
    requires Apart(mem, d, fs) && gs <= fs
    ensures Apart(mem, d, gs)
  {
  }

  /** Frames a copy still needs, from entry `j` of table `t`, and from table `i`. */
  function PagesFrom(mem: Memory, t: nat, j: nat): nat
    decreases ENTRIES - j
  {
    if j >= ENTRIES then 0 else (if Present(Word(mem, t, j)) then 1 else 0) + PagesFrom(mem, t, j + 1)
  }

  function FramesFrom(mem: Memory, d: nat, i: nat): nat
    decreases USER_PDES - i
  {
    if i >= USER_PDES then 0
    else (if HasTab(mem, d, i) then 1 + PagesFrom(mem, TabOf(mem, d, i), 0) else 0) + FramesFrom(mem, d, i + 1)
  }

  /** A copy of `s` into `d` under way, `b` done. */
  ghost predicate Copying(was: Memory, free0: seq<nat>, s: nat, mem: Memory, free: seq<nat>, d: nat, own: Owner, b: Bound) {
    Growing(was, s, mem, d, own, b) && Split(free0, free, own) && Apart(was, s, Elems(free0))
  }

  /** User entries not reached yet are still zero. */
  ghost predicate Blank(mem: Memory, d: nat, i: nat) {
    forall x: nat {:trigger HasTab(mem, d, x)} :: i <= x < USER_PDES ==> !HasTab(mem, d, x)
  }

  predicate SameDir(was: Memory, mem: Memory, d: nat) {
    |mem| == |was| && d < |was| && mem[d] == was[d]
  }

  lemma SetTwice(f: Frame, j: nat, v: uint32, w: uint32)
    requires j < ENTRIES
    ensures SetEntry(SetEntry(f, j, v), j, w) == SetEntry(f, j, w)
  {
  }

  /** What pgtab_copy reads and writes at entry `j`: the source as it was, and a
      table of its own. */
  lemma EntryFacts(was: Memory, free0: seq<nat>, s: nat, mem: Memory, free: seq<nat>, d: nat, own: Owner, i: nat, j: nat)
    requires Copying(was, free0, s, mem, free, d, own, Bound(i + 1, i, j)) && i < USER_PDES && j < ENTRIES
    requires HasTab(was, s, i) && HasTab(mem, d, i)
    ensures var src, dst := TabOf(was, s, i), TabOf(mem, d, i);
            && src < |mem| && dst < |mem| && dst !in free && src != dst
            && Entry(mem[src], j) == Word(was, src, j)
            && (HasPage(was, s, i, j) <==> Present(Word(was, src, j)))
            && (Present(Word(was, src, j)) ==> Target(Word(was, src, j)) == PageOf(was, s, i, j) < |mem|)
            && (Present(Word(was, src, j)) ==> PageOf(was, s, i, j) != dst)
            && d < |mem| && d !in free && d != dst
  {
    hide Entry, Present, Target;
    var src, dst := TabOf(was, s, i), TabOf(mem, d, i);
    assert RoleIs(own, dst, Tab(i)) && Justified(mem, d, dst, own[dst], Bound(i + 1, i, j));
    assert dst in own.Keys && HasTab(was, s, i);
    assert HasPage(was, s, i, j) <==> Present(Word(was, src, j));
  }

  lemma PageStep(was: Memory, free0: seq<nat>, s: nat, mem: Memory, free: seq<nat>, d: nat, own: Owner, i: nat, j: nat)
    requires Copying(was, free0, s, mem, free, d, own, Bound(i + 1, i, j)) && i < USER_PDES && j < ENTRIES
    requires HasPage(was, s, i, j) && HasTab(mem, d, i) && Listable(mem, free) && free != []
    ensures var (u, p, q) := (TabOf(mem, d, i), free[0], PageOf(was, s, i, j));
            && u < |mem| && q < |mem| && p !in free[1..] && p != u
            && var mem' := mem[u := SetEntry(mem[u], j, EntryFor(p))][p := mem[q]];
               && Copying(was, free0, s, mem', free[1..], d, own[p := Page(i, j)], Bound(i + 1, i, j + 1))
               && HasTab(mem', d, i) && TabOf(mem', d, i) == u
  {
    hide Entry, SetEntry, HasTab, TabOf, PageOf, HasPage, Owns, Copied, Kept, Apart;
    SplitTake(mem, free0, free, own, Page(i, j));
    ApartFewer(was, s, Elems(free0), own.Keys + {free[0]});
    GrowPage(was, s, mem, d, own, i, j, free[0]);
    assert free[0] != TabOf(mem, d, i) by { DstOwned(mem, d, own, i, j); }
  }

  lemma DstOwned(mem: Memory, d: nat, own: Owner, i: nat, j: nat)
    requires Owns(mem, d, own, Bound(i + 1, i, j)) && HasTab(mem, d, i)
    ensures TabOf(mem, d, i) in own
  {
  }

  lemma SkipStep(was: Memory, free0: seq<nat>, s: nat, mem: Memory, free: seq<nat>, d: nat, own: Owner, i: nat, j: nat)
    requires Copying(was, free0, s, mem, free, d, own, Bound(i + 1, i, j)) && i < USER_PDES && j < ENTRIES
    requires HasTab(was, s, i) && !HasPage(was, s, i, j) && HasTab(mem, d, i)
    ensures var u := TabOf(mem, d, i);
            && u < |mem|
            && var mem' := mem[u := SetEntry(mem[u], j, 0)];
               && Copying(was, free0, s, mem', free, d, own, Bound(i + 1, i, j + 1))
               && HasTab(mem', d, i) && TabOf(mem', d, i) == u
  {
    hide Entry, SetEntry, HasTab, TabOf, PageOf, HasPage, Owns, Copied, Kept, Apart;
    GrowSkipPage(was, s, mem, d, own, i, j);
  }

  /** One turn of the loop of pgtab_copy. */
  method CopyEntry(ram: Ram, src: nat, dst: nat, j: nat,
                   ghost was: Memory, ghost free0: seq<nat>, ghost s: nat, ghost d: nat, ghost own: Owner, ghost i: nat)
    returns (ghost own': Owner)
    requires ram.Valid() && i < USER_PDES && j < ENTRIES
    requires Copying(was, free0, s, ram.mem, ram.free, d, own, Bound(i + 1, i, j))
    requires HasTab(was, s, i) && src == TabOf(was, s, i) && HasTab(ram.mem, d, i) && dst == TabOf(ram.mem, d, i)
    requires PagesFrom(was, src, j) <= |ram.free|
    modifies ram
    ensures ram.Valid() && ram.freeCnt + ram.usingCnt == old(ram.freeCnt + ram.usingCnt)
    ensures Copying(was, free0, s, ram.mem, ram.free, d, own', Bound(i + 1, i, j + 1))
    ensures HasTab(ram.mem, d, i) && dst == TabOf(ram.mem, d, i)
    ensures SameDir(old(ram.mem), ram.mem, d)
    ensures |ram.free| - PagesFrom(was, src, j + 1) == old(|ram.free|) - PagesFrom(was, src, j)
  {
    hide Entry, SetEntry, Present, Target, HasTab, TabOf, PageOf, HasPage, Copying, Chain, Word;
    own' := own;
    ghost var (mem0, free) := (ram.mem, ram.free);
    ChainHead(mem0, ram.freeList, free);
    EntryFacts(was, free0, s, mem0, free, d, own, i, j);
    ram.Poke(dst, SetEntry(ram.mem[dst], j, 0));
    var pte := Entry(ram.mem[src], j);
    if Present(pte) {
      ChainFacts(ram.mem, ram.freeList, free);
      PageStep(was, free0, s, mem0, free, d, own, i, j);
      var paddr := ram.Palloc();
      var p := paddr / PG_SIZE;
      own' := own[p := Page(i, j)];
      SetTwice(mem0[dst], j, 0, EntryFor(p));
      ram.Poke(dst, SetEntry(ram.mem[dst], j, EntryFor(p)));
      ram.Poke(p, ram.mem[Target(pte)]);
      assert ram.mem == mem0[dst := SetEntry(mem0[dst], j, EntryFor(p))][p := mem0[PageOf(was, s, i, j)]];
    } else {
      SkipStep(was, free0, s, mem0, free, d, own, i, j);
    }
  }

  lemma ChainFacts(mem: Memory, head: uint32, free: seq<nat>)
    requires Chain(mem, head, free)
    ensures Listable(mem, free)
  {
  }

  /** pgtab_copy */
  method PgtabCopy(ram: Ram, src: nat, dst: nat,
                   ghost was: Memory, ghost free0: seq<nat>, ghost s: nat, ghost d: nat, ghost own: Owner, ghost i: nat)
    returns (ghost own': Owner)
    requires ram.Valid() && i < USER_PDES
    requires Copying(was, free0, s, ram.mem, ram.free, d, own, Bound(i + 1, i, 0))
    requires HasTab(was, s, i) && src == TabOf(was, s, i) && HasTab(ram.mem, d, i) && dst == TabOf(ram.mem, d, i)
    requires PagesFrom(was, src, 0) <= |ram.free| && d < |ram.mem|
    modifies ram
    ensures ram.Valid() && ram.freeCnt + ram.usingCnt == old(ram.freeCnt + ram.usingCnt)
    ensures Copying(was, free0, s, ram.mem, ram.free, d, own', Bound(i + 1, i + 1, 0))
    ensures SameDir(old(ram.mem), ram.mem, d)
    ensures |ram.free| == old(|ram.free|) - PagesFrom(was, src, 0)
  {
    hide Entry, Present, Target, HasTab, TabOf, Copying, Chain, Word;
    own' := own;
    for j := 0 to ENTRIES
      invariant ram.Valid() && ram.freeCnt + ram.usingCnt == old(ram.freeCnt + ram.usingCnt)
      invariant Copying(was, free0, s, ram.mem, ram.free, d, own', Bound(i + 1, i, j))
      invariant HasTab(ram.mem, d, i) && dst == TabOf(ram.mem, d, i) && SameDir(old(ram.mem), ram.mem, d)
      invariant |ram.free| - PagesFrom(was, src, j) == old(|ram.free|) - PagesFrom(was, src, 0)
    {
      own' := CopyEntry(ram, src, dst, j, was, free0, s, d, own', i);
    }
    RowDone(was, free0, s, ram.mem, ram.free, d, own', i);
  }

  lemma RowDone(was: Memory, free0: seq<nat>, s: nat, mem: Memory, free: seq<nat>, d: nat, own: Owner, i: nat)
    requires Copying(was, free0, s, mem, free, d, own, Bound(i + 1, i, ENTRIES))
    ensures Copying(was, free0, s, mem, free, d, own, Bound(i + 1, i + 1, 0))
  {
    hide Growing, Split, Apart;
    GrowRow(was, s, mem, d, own, i);
  }

  /** The shared kernel half: entries 512 to 767 are the kernel's, those above zero. */
  ghost predicate KernelHalf(was: Memory, kdir: nat, mem: Memory, d: nat) {
    forall x: nat :: USER_PDES <= x < ENTRIES ==>
      Word(mem, d, x) == if x <= KERNEL_LAST_PDE then Word(was, kdir, x) else 0
  }

  /** pgdir_new */
  method PgdirNew(ram: Ram, kdir: nat) returns (d: nat)
    requires ram.Valid() && ram.free != [] && kdir < |ram.mem| && kdir !in ram.free
    modifies ram
    ensures ram.Valid() && ram.freeCnt + ram.usingCnt == old(ram.freeCnt + ram.usingCnt)
    ensures d == old(ram.free)[0] && ram.free == old(ram.free)[1..]
    ensures Kept(old(ram.mem), ram.mem, {d}) && Blank(ram.mem, d, 0) && 0 < d < |ram.mem| <= MAX_FRAMES
    ensures KernelHalf(old(ram.mem), kdir, ram.mem, d)
  {
    hide Entry, SetEntry, Chain;
    ChainHead(ram.mem, ram.freeList, ram.free);
    ChainFacts(ram.mem, ram.freeList, ram.free);
    var pa := ram.Palloc();
    d := pa / PG_SIZE;
    assert d in old(ram.free) && d != kdir;
    ram.Poke(d, ZeroFrame());
    for x := USER_PDES to KERNEL_LAST_PDE + 1
      invariant ram.Valid() && ram.freeCnt + ram.usingCnt == old(ram.freeCnt + ram.usingCnt)
      invariant ram.free == old(ram.free)[1..] && Kept(old(ram.mem), ram.mem, {d})
      invariant forall y: nat :: y < ENTRIES ==>
        Word(ram.mem, d, y) == if USER_PDES <= y < x then Word(old(ram.mem), kdir, y) else 0
    {
      ghost var mem := ram.mem;
      assert Entry(ram.mem[kdir], x) == Word(old(ram.mem), kdir, x);
      ram.Poke(d, SetEntry(ram.mem[d], x, Entry(ram.mem[kdir], x)));
      forall y: nat | y < ENTRIES && y != x ensures Word(ram.mem, d, y) == Word(mem, d, y) { }
    }
  }

  lemma CopyStarts(was: Memory, free0: seq<nat>, s: nat, mem: Memory)
    requires Listable(was, free0) && free0 != [] && Apart(was, s, Elems(free0))
    requires Kept(was, mem, {free0[0]}) && Blank(mem, free0[0], 0)
    ensures Copying(was, free0, s, mem, free0[1..], free0[0], map[free0[0] := Dir], Bound(0, 0, 0))
  {
    var own: Owner := map[free0[0] := Dir];
    assert free0 == [free0[0]] + free0[1..];
    assert own.Keys == {free0[0]};
  }

  lemma TabStep(was: Memory, free0: seq<nat>, s: nat, mem: Memory, free: seq<nat>, d: nat, own: Owner, i: nat)
    requires Copying(was, free0, s, mem, free, d, own, Bound(i, i, 0)) && i < USER_PDES && Blank(mem, d, i)
    requires HasTab(was, s, i) && Listable(mem, free) && free != []
    ensures d < |mem| && d !in free
    ensures var mem' := mem[d := SetEntry(mem[d], i, EntryFor(free[0]))];
            && Copying(was, free0, s, mem', free[1..], d, own[free[0] := Tab(i)], Bound(i + 1, i, 0))
            && HasTab(mem', d, i) && TabOf(mem', d, i) == free[0] && Blank(mem', d, i + 1)
            && forall x: nat :: USER_PDES <= x < ENTRIES ==> Word(mem', d, x) == Word(mem, d, x)
  {
    hide Entry, SetEntry, Present, Target, EntryFor, PageOf, HasPage, Copied, Kept, Apart;
    var u := free[0];
    SplitTake(mem, free0, free, own, Tab(i));
    ApartFewer(was, s, Elems(free0), own.Keys + {u});
    GrowTab(was, s, mem, d, own, i, u);
    EntryForFacts(u);
    assert Justified(mem, d, d, own[d], Bound(i, i, 0));
    var mem' := mem[d := SetEntry(mem[d], i, EntryFor(u))];
    forall x: nat | x < ENTRIES && x != i ensures Word(mem', d, x) == Word(mem, d, x) { }
    assert forall x: nat :: i < x < USER_PDES ==> (HasTab(mem', d, x) <==> HasTab(mem, d, x));
  }

  /** Reading the source directory while the copy grows. */
  lemma SourceKept(was: Memory, free0: seq<nat>, s: nat, mem: Memory, free: seq<nat>, d: nat, own: Owner, b: Bound, i: nat)
    requires Copying(was, free0, s, mem, free, d, own, b) && i < USER_PDES
    ensures s < |mem| && d < |mem| && Entry(mem[s], i) == Word(was, s, i)
    ensures b == Bound(i, i, 0) && !HasTab(was, s, i) && !HasTab(mem, d, i) ==>
              Copying(was, free0, s, mem, free, d, own, Bound(i + 1, i + 1, 0))
  {
    hide Entry, HasTab, TabOf, PageOf, HasPage;
    assert Justified(mem, d, d, own[d], b);
    if b == Bound(i, i, 0) && !HasTab(was, s, i) && !HasTab(mem, d, i) {
      GrowSkipTab(was, s, mem, d, own, i);
    }
  }

  /** One turn of the loop of pgdir_copy. */
  method CopyTab(ram: Ram, s: nat, cp: nat, i: nat, ghost was: Memory, ghost free0: seq<nat>, ghost own: Owner, ghost kdir: nat)
    returns (ghost own': Owner)
    requires ram.Valid() && i < USER_PDES && Blank(ram.mem, cp, i) && KernelHalf(was, kdir, ram.mem, cp)
    requires Copying(was, free0, s, ram.mem, ram.free, cp, own, Bound(i, i, 0)) && FramesFrom(was, s, i) <= |ram.free|
    modifies ram
    ensures ram.Valid() && ram.freeCnt + ram.usingCnt == old(ram.freeCnt + ram.usingCnt)
    ensures Copying(was, free0, s, ram.mem, ram.free, cp, own', Bound(i + 1, i + 1, 0))
    ensures Blank(ram.mem, cp, i + 1) && KernelHalf(was, kdir, ram.mem, cp)
    ensures |ram.free| - FramesFrom(was, s, i + 1) == old(|ram.free|) - FramesFrom(was, s, i)
  {
    hide Entry, SetEntry, Copying, Chain, Present, Target, PagesFrom;
    own' := own;
    SourceKept(was, free0, s, ram.mem, ram.free, cp, own, Bound(i, i, 0), i);
    ChainFacts(ram.mem, ram.freeList, ram.free);
    var pde := Entry(ram.mem[s], i);
    if Present(pde) {
      TabStep(was, free0, s, ram.mem, ram.free, cp, own, i);
      own' := own[ram.free[0] := Tab(i)];
      var paddr := ram.Palloc();
      ram.Poke(cp, SetEntry(ram.mem[cp], i, EntryFor(paddr / PG_SIZE)));
      ghost var mid := ram.mem;
      assert Blank(mid, cp, i + 1) && KernelHalf(was, kdir, mid, cp);
      own' := PgtabCopy(ram, Target(pde), paddr / PG_SIZE, was, free0, s, cp, own', i);
      DirKept(was, kdir, mid, ram.mem, cp, i + 1);
    }
  }

  lemma DirKept(was: Memory, kdir: nat, mem: Memory, mem': Memory, d: nat, i: nat)
    requires SameDir(mem, mem', d) && Blank(mem, d, i) && KernelHalf(was, kdir, mem, d)
    ensures Blank(mem', d, i) && KernelHalf(was, kdir, mem', d)
  {
    hide Entry;
    assert forall x: nat :: Word(mem', d, x) == Word(mem, d, x);
    assert forall x: nat :: HasTab(mem', d, x) == HasTab(mem, d, x);
  }

  /** pgdir_copy, with frames available: the same pages with the same bytes, in
      frames that were free and are now the copy's alone; nothing else changed. */
  method PgdirCopy(ram: Ram, pgdir: nat, kdir: nat) returns (cp: nat, ghost own: Owner)
    requires ram.Valid() && kdir < |ram.mem| && kdir !in ram.free
    requires Apart(ram.mem, pgdir, Elems(ram.free)) && 1 + FramesFrom(ram.mem, pgdir, 0) <= |ram.free|
    modifies ram
    ensures ram.Valid() && ram.freeCnt + ram.usingCnt == old(ram.freeCnt + ram.usingCnt)
    ensures Copying(old(ram.mem), old(ram.free), pgdir, ram.mem, ram.free, cp, own, WHOLE)
    ensures KernelHalf(old(ram.mem), kdir, ram.mem, cp)
    ensures |ram.free| == old(|ram.free|) - 1 - FramesFrom(old(ram.mem), pgdir, 0)
  {
    hide Entry, SetEntry, Copying, Chain, Apart, KernelHalf, Blank, HasTab, TabOf, PagesFrom;
    ghost var was, free0 := ram.mem, ram.free;
    ChainFacts(ram.mem, ram.freeList, ram.free);
    cp := PgdirNew(ram, kdir);
    CopyStarts(was, free0, pgdir, ram.mem);
    own := map[cp := Dir];
    for i := 0 to USER_PDES
      invariant ram.Valid() && ram.freeCnt + ram.usingCnt == old(ram.freeCnt + ram.usingCnt)
      invariant Copying(was, free0, pgdir, ram.mem, ram.free, cp, own, Bound(i, i, 0))
      invariant Blank(ram.mem, cp, i) && KernelHalf(was, kdir, ram.mem, cp)
      invariant |ram.free| - FramesFrom(was, pgdir, i) == |free0| - 1 - FramesFrom(was, pgdir, 0)
    {
      own := CopyTab(ram, pgdir, cp, i, was, free0, own, kdir);
    }
  }

  // ------------------------------------------------------------------
  // Freeing
  // ------------------------------------------------------------------

  /** The role comes before entry `j` of table `i` in the order pgdir_free goes. */
  predicate Gone(r: Role, i: nat, j: nat) {
    match r
    case Dir => false
    case Tab(x) => x < i
    case Page(x, y) => x < i || (x == i && y < j)
  }

  /** pgdir_free under way: the frames gone are free again, the others as at the
      start, except for the first `j` entries of the table being emptied. */
  ghost predicate Freeing(was: Memory, free0: seq<nat>, mem: Memory, free: seq<nat>, own: Owner, i: nat, j: nat) {
    && |mem| == |was|
    && (forall f :: f in free <==> f in free0 || (f in own && Gone(own[f], i, j)))
    && (forall f :: 0 <= f < |was| && f !in own ==> mem[f] == was[f])
    && (forall f :: f in own && f < |was| && !Gone(own[f], i, j) && (own[f] != Tab(i) || j == 0) ==> mem[f] == was[f])
    && (forall f :: f in own && f < |was| && Gone(own[f], i, j) ==> Wiped(mem, f))
  }

  /** Nothing is left in a freed frame but the link of the free list in its first word. */
  predicate Wiped(mem: Memory, f: nat) {
    forall k: nat :: 1 <= k < ENTRIES ==> Word(mem, f, k) == 0
  }

  /** One turn of the inner loop: entry `j` of table `t` is cleared and its page,
      if there is one, given back. */
  lemma FreeEntry(was: Memory, free0: seq<nat>, mem: Memory, mem': Memory, free: seq<nat>, free': seq<nat>, d: nat, own: Owner, i: nat, j: nat)
    requires Owns(was, d, own, WHOLE) && Freeing(was, free0, mem, free, own, i, j)
    requires i < USER_PDES && j < ENTRIES && HasTab(was, d, i) && |mem'| == |mem|
    requires forall f :: 0 <= f < |mem| && f != TabOf(was, d, i) && !(HasPage(was, d, i, j) && f == PageOf(was, d, i, j)) ==> mem'[f] == mem[f]
    requires free' == if HasPage(was, d, i, j) then [PageOf(was, d, i, j)] + free else free
    requires HasPage(was, d, i, j) ==> Wiped(mem', PageOf(was, d, i, j))
    ensures Freeing(was, free0, mem', free', own, i, j + 1)
  {
    hide Entry, Present, Target, HasTab, TabOf, PageOf, HasPage;
    var t, p := TabOf(was, d, i), PageOf(was, d, i, j);
    assert RoleIs(own, t, Tab(i));
    assert In(WHOLE, i, j);
    assert HasPage(was, d, i, j) ==> RoleIs(own, p, Page(i, j));
    forall f | f in own ensures Gone(own[f], i, j + 1) <==> Gone(own[f], i, j) || (HasPage(was, d, i, j) && f == p) {
      assert Justified(was, d, f, own[f], WHOLE);
    }
    forall f | f in own && f < |was| && Gone(own[f], i, j + 1) ensures Wiped(mem', f) {
      if !(HasPage(was, d, i, j) && f == p) { WipedStays(mem, mem', f); }
    }
  }

  lemma WipedStays(mem: Memory, mem': Memory, f: nat)
    requires f < |mem| == |mem'| && mem'[f] == mem[f] && Wiped(mem, f)
    ensures Wiped(mem', f)
  {
    hide Entry;
    forall k: nat | 1 <= k < ENTRIES ensures Word(mem', f, k) == 0 { assert Word(mem, f, k) == 0; }
  }

  /** After the inner loop the table itself goes. */
  lemma FreeTab(was: Memory, free0: seq<nat>, mem: Memory, mem': Memory, free: seq<nat>, free': seq<nat>, d: nat, own: Owner, i: nat)
    requires Owns(was, d, own, WHOLE) && i < USER_PDES && |mem'| == |mem|
    requires Freeing(was, free0, mem, free, own, i, if HasTab(was, d, i) then ENTRIES else 0)
    requires forall f :: 0 <= f < |mem| && !(HasTab(was, d, i) && f == TabOf(was, d, i)) ==> mem'[f] == mem[f]
    requires free' == if HasTab(was, d, i) then [TabOf(was, d, i)] + free else free
    requires HasTab(was, d, i) ==> Wiped(mem', TabOf(was, d, i))
    ensures Freeing(was, free0, mem', free', own, i + 1, 0)
  {
    hide Entry, Present, Target, HasTab, TabOf, PageOf, Wiped;
    var t, j := TabOf(was, d, i), if HasTab(was, d, i) then ENTRIES else 0;
    assert HasTab(was, d, i) ==> RoleIs(own, t, Tab(i));
    forall f | f in own ensures Gone(own[f], i + 1, 0) <==> Gone(own[f], i, j) || (HasTab(was, d, i) && f == t) {
      assert Justified(was, d, f, own[f], WHOLE);
    }
    forall f | f in own && f < |was| && Gone(own[f], i + 1, 0) ensures Wiped(mem', f) {
      if !(HasTab(was, d, i) && f == t) { WipedStays(mem, mem', f); }
    }
  }

  /** What pgdir_free finds at entry `j` of table `i`. */
  lemma FreeFacts(was: Memory, free0: seq<nat>, mem: Memory, free: seq<nat>, d: nat, own: Owner, i: nat, j: nat)
    requires Owns(was, d, own, WHOLE) && Freeing(was, free0, mem, free, own, i, j) && i < USER_PDES && j <= ENTRIES
    requires forall f :: f in own ==> f !in free0
    ensures |mem| == |was| <= MAX_FRAMES && 0 < d < |mem| && d !in free && mem[d] == was[d]
    ensures HasTab(was, d, i) ==>
              && 0 < TabOf(was, d, i) < |mem| && TabOf(was, d, i) !in free && TabOf(was, d, i) != d
              && (j == 0 ==> mem[TabOf(was, d, i)] == was[TabOf(was, d, i)])
              && (HasPage(was, d, i, j) && j < ENTRIES ==>
                    0 < PageOf(was, d, i, j) < |mem| && PageOf(was, d, i, j) !in free && PageOf(was, d, i, j) != TabOf(was, d, i))
  {
    hide Entry, Present, Target, HasTab, TabOf, PageOf, HasPage;
    assert Justified(was, d, d, own[d], WHOLE) && In(WHOLE, i, 0);
    if HasTab(was, d, i) {
      var t := TabOf(was, d, i);
      assert RoleIs(own, t, Tab(i)) && Justified(was, d, t, own[t], WHOLE);
      if HasPage(was, d, i, j) && j < ENTRIES {
        var p := PageOf(was, d, i, j);
        assert In(WHOLE, i, j) && RoleIs(own, p, Page(i, j)) && Justified(was, d, p, own[p], WHOLE);
      }
    }
  }

  /** One turn of the inner loop of pgdir_free. */
  method FreeOne(ram: Ram, t: nat, j: nat, ghost was: Memory, ghost free0: seq<nat>, ghost d: nat, ghost own: Owner, ghost i: nat)
    requires ram.Valid() && Owns(was, d, own, WHOLE) && Freeing(was, free0, ram.mem, ram.free, own, i, j)
    requires (forall f :: f in own ==> f !in free0) && i < USER_PDES && j < ENTRIES && HasTab(was, d, i) && t == TabOf(was, d, i)
    requires forall y: nat :: j <= y < ENTRIES ==> Word(ram.mem, t, y) == Word(was, t, y)
    requires forall y: nat :: y < j ==> Word(ram.mem, t, y) == 0
    modifies ram
    ensures ram.Valid() && ram.freeCnt + ram.usingCnt == old(ram.freeCnt + ram.usingCnt)
    ensures Freeing(was, free0, ram.mem, ram.free, own, i, j + 1)
    ensures forall y: nat :: j < y < ENTRIES ==> Word(ram.mem, t, y) == Word(was, t, y)
    ensures forall y: nat :: y <= j ==> Word(ram.mem, t, y) == 0
  {
    hide Entry, SetEntry, Target, Present, Chain, HasTab, TabOf, Owns, Freeing;
    ghost var (mem0, free) := (ram.mem, ram.free);
    FreeFacts(was, free0, mem0, free, d, own, i, j);
    var pte := Entry(ram.mem[t], j);
    assert pte == Word(was, t, j);
    ghost var page := 0;
    if Present(pte) {
      var p := Target(pte);
      page := p;
      ram.Poke(p, ZeroFrame());
      ram.Pfree(PG_SIZE * p);
      forall k: nat | 1 <= k < ENTRIES ensures Word(ram.mem, p, k) == 0 { assert Word(ram.mem, p, k) == Entry(ram.mem[p], k); }
    }
    ghost var mem1 := ram.mem;
    ram.Poke(t, SetEntry(ram.mem[t], j, 0));
    forall y: nat | y < ENTRIES && y != j ensures Word(ram.mem, t, y) == Word(mem0, t, y) {
      assert Word(ram.mem, t, y) == Entry(mem1[t], y) == Word(mem0, t, y);
    }
    assert Word(ram.mem, t, j) == 0;
    if Present(pte) { WipedStays(mem1, ram.mem, page); }
    FreeEntry(was, free0, mem0, ram.mem, free, ram.free, d, own, i, j);
  }

  /** The body of the outer loop of pgdir_free. */
  method FreeRow(ram: Ram, d: nat, i: nat, ghost was: Memory, ghost free0: seq<nat>, ghost own: Owner)
    requires ram.Valid() && Owns(was, d, own, WHOLE) && Freeing(was, free0, ram.mem, ram.free, own, i, 0)
    requires (forall f :: f in own ==> f !in free0) && i < USER_PDES
    modifies ram
    ensures ram.Valid() && ram.freeCnt + ram.usingCnt == old(ram.freeCnt + ram.usingCnt)
    ensures Freeing(was, free0, ram.mem, ram.free, own, i + 1, 0)
  {
    hide Entry, SetEntry, Present, Chain, HasPage, Owns, Freeing;
    FreeFacts(was, free0, ram.mem, ram.free, d, own, i, 0);
    var pde := Entry(ram.mem[d], i);
    assert pde == Word(was, d, i);
    if Present(pde) {
      var t := Target(pde);
      for j := 0 to ENTRIES
        invariant ram.Valid() && ram.freeCnt + ram.usingCnt == old(ram.freeCnt + ram.usingCnt)
        invariant Freeing(was, free0, ram.mem, ram.free, own, i, j)
        invariant forall y: nat :: j <= y < ENTRIES ==> Word(ram.mem, t, y) == Word(was, t, y)
        invariant forall y: nat :: y < j ==> Word(ram.mem, t, y) == 0
      {
        FreeOne(ram, t, j, was, free0, d, own, i);
      }
      ghost var (mem0, free) := (ram.mem, ram.free);
      FreeFacts(was, free0, mem0, free, d, own, i, ENTRIES);
      ram.Pfree(PG_SIZE * t);
      forall k: nat | 1 <= k < ENTRIES ensures Word(ram.mem, t, k) == 0 { assert Word(mem0, t, k) == Entry(mem0[t], k); }
      FreeTab(was, free0, mem0, ram.mem, free, ram.free, d, own, i);
    } else {
      FreeTab(was, free0, ram.mem, ram.mem, ram.free, ram.free, d, own, i);
    }
  }

  /** pgdir_free of an address space with frames of its own: exactly those frames
      become free, and no other frame changes. */
  method PgdirFree(ram: Ram, d: nat, ghost own: Owner)
    requires ram.Valid() && Owns(ram.mem, d, own, WHOLE) && forall f :: f in own ==> f !in ram.free
    modifies ram
    ensures ram.Valid() && ram.freeCnt + ram.usingCnt == old(ram.freeCnt + ram.usingCnt)
    ensures Elems(ram.free) == Elems(old(ram.free)) + own.Keys
    ensures Kept(old(ram.mem), ram.mem, own.Keys)
    ensures forall f :: f in own && own[f] != Dir ==> Wiped(ram.mem, f)
  {
    hide Entry, SetEntry, Chain, Owns, HasTab, HasPage, TabOf, PageOf;
    ghost var was, free0 := ram.mem, ram.free;
    FreeStarts(was, free0, own);
    for i := 0 to USER_PDES
      invariant ram.Valid() && ram.freeCnt + ram.usingCnt == old(ram.freeCnt + ram.usingCnt)
      invariant Freeing(was, free0, ram.mem, ram.free, own, i, 0)
    {
      FreeRow(ram, d, i, was, free0, own);
    }
    FreeEnds(was, free0, ram.mem, ram.free, d, own);
    ghost var mem := ram.mem;
    ram.Pfree(PG_SIZE * d);
    forall f | f in own && own[f] != Dir ensures Wiped(ram.mem, f) { WipedStays(mem, ram.mem, f); }
  }

  lemma FreeStarts(was: Memory, free0: seq<nat>, own: Owner)
    ensures Freeing(was, free0, was, free0, own, 0, 0)
  {
  }

  lemma FreeEnds(was: Memory, free0: seq<nat>, mem: Memory, free: seq<nat>, d: nat, own: Owner)
    requires Owns(was, d, own, WHOLE) && Freeing(was, free0, mem, free, own, USER_PDES, 0) && forall f :: f in own ==> f !in free0
    ensures 0 < d < |mem| <= MAX_FRAMES && d !in free && d in own
    ensures Elems([d] + free) == Elems(free0) + own.Keys && Kept(was, mem, own.Keys)
    ensures own[d] == Dir && forall f :: f in own && own[f] != Dir ==> f < |mem| && Wiped(mem, f)
  {
    hide HasTab, HasPage, TabOf, PageOf;
    forall f | f in own ensures (own[f] == Dir || Gone(own[f], USER_PDES, 0)) && f < |was| {
      assert Justified(was, d, f, own[f], WHOLE);
    }
    assert Justified(was, d, d, own[d], WHOLE);
    forall f | f in own && own[f] == Dir ensures f == d { assert Justified(was, d, f, own[f], WHOLE); }
  }

  /** A copy that is freed again gives back every frame it took: the free set and
      both counters are what they were, and no frame in use has changed. */
  method CopyThenFree(ram: Ram, pgdir: nat, kdir: nat)
    requires ram.Valid() && kdir < |ram.mem| && kdir !in ram.free
    requires Apart(ram.mem, pgdir, Elems(ram.free)) && 1 + FramesFrom(ram.mem, pgdir, 0) <= |ram.free|
    modifies ram
    ensures ram.Valid() && Elems(ram.free) == old(Elems(ram.free))
    ensures ram.freeCnt == old(ram.freeCnt) && ram.usingCnt == old(ram.usingCnt)
    ensures Kept(old(ram.mem), ram.mem, Elems(ram.free))
  {
    hide Entry, Growing, Chain, Apart, Owns, Kept, FramesFrom;
    ghost var was, free0 := ram.mem, ram.free;
    ChainFacts(ram.mem, ram.freeList, ram.free);
    var cp, own := PgdirCopy(ram, pgdir, kdir);
    ghost var mid, free := ram.mem, ram.free;
    CopyingOwns(was, free0, pgdir, mid, free, cp, own);
    PgdirFree(ram, cp, own);
    KeptTwice(was, mid, ram.mem, own.Keys, Elems(free0));
    ChainFacts(ram.mem, ram.freeList, ram.free);
    assert Elems(ram.free) == Elems(free0);
    SameLength(ram.free, free0);
  }

  lemma CopyingOwns(was: Memory, free0: seq<nat>, s: nat, mem: Memory, free: seq<nat>, d: nat, own: Owner)
    requires Copying(was, free0, s, mem, free, d, own, WHOLE)
    ensures Owns(mem, d, own, WHOLE) && Kept(was, mem, own.Keys) && Split(free0, free, own)
    ensures own.Keys <= Elems(free0)
  {
  }

  lemma KeptTwice(a: Memory, b: Memory, c: Memory, fs: set<nat>, gs: set<nat>)
    requires Kept(a, b, fs) && Kept(b, c, fs) && fs <= gs
    ensures Kept(a, c, gs)
  {
  }

  predicate NoRepeats(s: seq<nat>) {
    forall j, k :: 0 <= j < k < |s| ==> s[j] != s[k]
  }

  lemma {:induction false} CountElems(s: seq<nat>)
    requires NoRepeats(s)
    ensures |Elems(s)| == |s|
  {
    if s != [] {
      CountElems(s[1..]);
      assert Elems(s) == Elems(s[1..]) + {s[0]};
    }
  }

  lemma SameLength(s: seq<nat>, t: seq<nat>)
    requires NoRepeats(s) && NoRepeats(t) && Elems(s) == Elems(t)
    ensures |s| == |t|
  {
    CountElems(s);
    CountElems(t);
  }

  // ------------------------------------------------------------------
  // Isolation
  // ------------------------------------------------------------------

  datatype View = Absent | Bytes(f: Frame)

  /** What a program running under directory `d` sees at page `y` of table `x`. */
  function Seen(mem: Memory, d: nat, x: nat, y: nat): View {
    if HasPage(mem, d, x, y) && PageOf(mem, d, x, y) < |mem| then Bytes(mem[PageOf(mem, d, x, y)]) else Absent
  }

  predicate User(x: nat, y: nat) { x < USER_PDES && y < ENTRIES }

  /** Whether it may read there, and write. */
  function Rights(mem: Memory, d: nat, x: nat, y: nat): (bool, bool) {
    (UserReads(mem, d, x, y), UserWrites(mem, d, x, y))
  }

  /** A store through its own page shows there and nowhere else in the space. */
  lemma StoreHere(mem: Memory, d: nat, own: Owner, i: nat, j: nat, f: Frame, x: nat, y: nat)
    requires Owns(mem, d, own, WHOLE) && User(i, j) && HasPage(mem, d, i, j) && User(x, y)
    ensures var p := PageOf(mem, d, i, j);
            p < |mem| && Seen(mem[p := f], d, x, y) == if (x, y) == (i, j) then Bytes(f) else Seen(mem, d, x, y)
  {
    hide Entry, Present, Target;
    var p := PageOf(mem, d, i, j);
    assert In(WHOLE, i, j) && In(WHOLE, x, y) && RoleIs(own, p, Page(i, j)) && Justified(mem, d, p, own[p], WHOLE);
    assert HasTab(mem, d, x) ==> RoleIs(own, TabOf(mem, d, x), Tab(x));
    assert HasPage(mem, d, x, y) ==> RoleIs(own, PageOf(mem, d, x, y), Page(x, y));
  }

  /** The copy may be read and written wherever the source has a page; the rights in the
      source are as before. */
  lemma CopyRights(was: Memory, free0: seq<nat>, s: nat, mem: Memory, free: seq<nat>, d: nat, own: Owner, x: nat, y: nat)
    requires Copying(was, free0, s, mem, free, d, own, WHOLE) && User(x, y)
    ensures Rights(mem, d, x, y) == (HasPage(was, s, x, y), HasPage(was, s, x, y)) && Rights(mem, s, x, y) == Rights(was, s, x, y)
  {
    hide Entry, Present, Target, Owns, UserBit, WriteBit;
    assert In(WHOLE, x, y);
    assert HasPage(mem, d, x, y) <==> HasPage(was, s, x, y);
    assert HasTab(was, s, x) <==> HasTab(mem, s, x);
    assert HasTab(was, s, x) ==> TabOf(mem, s, x) == TabOf(was, s, x) && mem[TabOf(was, s, x)] == was[TabOf(was, s, x)];
    assert HasTab(was, s, x) ==> Word(mem, TabOf(mem, s, x), y) == Word(was, TabOf(was, s, x), y);
  }

  /** pgdir_copy keeps the rights of a page exactly if user mode may write it; a page that
      is read-only or the kernel's alone becomes writable in the copy. */
  lemma RightsKeptExactly(was: Memory, free0: seq<nat>, s: nat, mem: Memory, free: seq<nat>, d: nat, own: Owner, x: nat, y: nat)
    requires Copying(was, free0, s, mem, free, d, own, WHOLE) && User(x, y) && HasPage(was, s, x, y)
    ensures Rights(mem, d, x, y) == Rights(was, s, x, y) <==> UserWrites(was, s, x, y)
  {
    hide Copying, HasPage;
    CopyRights(was, free0, s, mem, free, d, own, x, y);
  }

  lemma CopySeen(was: Memory, free0: seq<nat>, s: nat, mem: Memory, free: seq<nat>, d: nat, own: Owner, x: nat, y: nat)
    requires Copying(was, free0, s, mem, free, d, own, WHOLE) && User(x, y)
    ensures Seen(mem, d, x, y) == Seen(was, s, x, y) == Seen(mem, s, x, y)
  {
    hide Entry, Present, Target, Owns;
    assert In(WHOLE, x, y);
    assert HasTab(was, s, x) <==> HasTab(mem, s, x);
    assert HasPage(was, s, x, y) <==> HasPage(mem, s, x, y);
    assert HasPage(mem, d, x, y) <==> HasPage(was, s, x, y);
  }
}
