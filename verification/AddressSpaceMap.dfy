/** Adding a page to an address space and writing through it: map_page,
    page_frame_ptr and pgdir_setrange of kernel/mem/pgtab.c. */
module AddressSpaceMap {
  import opened Frames
  import opened AddressSpace
  import opened AddressSpaceCode

  // ------------------------------------------------------------------
  // map_page
  // ------------------------------------------------------------------

  /** PDE_NR, PTE_NR and the offset of a virtual address. */
  function PdeNr(va: uint32): nat { va / 0x40_0000 }
  function PteNr(va: uint32): nat { va / PG_SIZE % ENTRIES }
  function Offset(va: uint32): nat { va % PG_SIZE }

  /** Every user page shows what it did, with the same rights. */
  ghost predicate SeenSame(mem: Memory, mem': Memory, d: nat) {
    && (forall x: nat, y: nat :: User(x, y) ==> Seen(mem', d, x, y) == Seen(mem, d, x, y))
    && (forall x: nat, y: nat :: User(x, y) ==> Rights(mem', d, x, y) == Rights(mem, d, x, y))
  }

  lemma AddTable(mem: Memory, d: nat, own: Owner, i: nat, u: nat)
    requires Owns(mem, d, own, WHOLE) && i < USER_PDES && !HasTab(mem, d, i) && 0 < u < |mem| && u !in own
    ensures d < |mem| && d != u
    ensures var mem' := mem[u := ZeroFrame()][d := SetEntry(mem[d], i, EntryFor(u))];
            && Owns(mem', d, own[u := Tab(i)], WHOLE) && HasTab(mem', d, i) && TabOf(mem', d, i) == u && TabOpen(mem', d, i)
            && (forall y: nat :: y < ENTRIES ==> !HasPage(mem', d, i, y)) && SeenSame(mem, mem', d)
  {
    hide Entry, SetEntry, Present, Target, EntryFor, UserBit, WriteBit;
    EntryForFacts(u);
    assert Justified(mem, d, d, own[d], WHOLE);
    var mem' := mem[u := ZeroFrame()][d := SetEntry(mem[d], i, EntryFor(u))];
    forall x: nat | x < USER_PDES && x != i
      ensures HasTab(mem', d, x) == HasTab(mem, d, x) && TabOf(mem', d, x) == TabOf(mem, d, x)
    { assert Word(mem', d, x) == Word(mem, d, x); }
    forall x: nat, y: nat | User(x, y) ensures Rights(mem', d, x, y) == Rights(mem, d, x, y) {
      if x != i && HasTab(mem, d, x) {
        assert RoleIs(own, TabOf(mem, d, x), Tab(x));
        assert Word(mem', d, x) == Word(mem, d, x) && mem'[TabOf(mem, d, x)] == mem[TabOf(mem, d, x)];
        assert Word(mem', TabOf(mem, d, x), y) == Word(mem, TabOf(mem, d, x), y);
      } else if x == i {
        assert Word(mem', u, y) == 0;
      }
    }
    assert Word(mem', d, i) == EntryFor(u);
    forall y: nat | y < ENTRIES ensures !HasPage(mem', d, i, y) { assert Word(mem', u, y) == 0; }
    forall x: nat, y: nat | In(WHOLE, x, y) && x != i
      ensures HasPage(mem', d, x, y) == HasPage(mem, d, x, y)
      ensures HasPage(mem, d, x, y) ==> PageOf(mem', d, x, y) == PageOf(mem, d, x, y) && mem'[PageOf(mem, d, x, y)] == mem[PageOf(mem, d, x, y)]
    {
      if HasTab(mem, d, x) {
        assert RoleIs(own, TabOf(mem, d, x), Tab(x));
        assert mem'[TabOf(mem, d, x)] == mem[TabOf(mem, d, x)];
        if HasPage(mem, d, x, y) { assert RoleIs(own, PageOf(mem, d, x, y), Page(x, y)); }
      }
    }
    AddTableOwns(mem, mem', d, own, i, u);
    assert !HasPage(mem, d, i, 0);
  }

  lemma AddTableOwns(mem: Memory, mem': Memory, d: nat, own: Owner, i: nat, u: nat)
    requires Owns(mem, d, own, WHOLE) && i < USER_PDES && !HasTab(mem, d, i) && 0 < u < |mem| && u !in own && |mem'| == |mem|
    requires HasTab(mem', d, i) && TabOf(mem', d, i) == u && forall y: nat :: y < ENTRIES ==> !HasPage(mem', d, i, y)
    requires forall x: nat :: x < USER_PDES && x != i ==> HasTab(mem', d, x) == HasTab(mem, d, x) && TabOf(mem', d, x) == TabOf(mem, d, x)
    requires forall x: nat, y: nat :: In(WHOLE, x, y) && x != i ==> HasPage(mem', d, x, y) == HasPage(mem, d, x, y)
    requires forall x: nat, y: nat :: In(WHOLE, x, y) && x != i && HasPage(mem, d, x, y) ==> PageOf(mem', d, x, y) == PageOf(mem, d, x, y)
    ensures Owns(mem', d, own[u := Tab(i)], WHOLE)
  {
    hide Entry, Present, Target, TabOf, PageOf, HasTab, Word;
    var own' := own[u := Tab(i)];
    forall f | f in own' ensures Justified(mem', d, f, own'[f], WHOLE) {
      if f != u { assert Justified(mem, d, f, own[f], WHOLE); }
    }
  }

  /** The rights that two entries on the way to a page leave. */
  function Through(pde: uint32, pte: uint32): (bool, bool) {
    (UserBit(pde) && UserBit(pte), UserBit(pde) && UserBit(pte) && WriteBit(pde) && WriteBit(pte))
  }

  lemma AddPage(mem: Memory, d: nat, own: Owner, i: nat, j: nat, p: nat, w: uint32)
    requires Owns(mem, d, own, WHOLE) && User(i, j) && HasTab(mem, d, i) && !HasPage(mem, d, i, j)
    requires 0 < p < |mem| && p !in own && Present(w) && Target(w) == p
    ensures TabOf(mem, d, i) < |mem| && TabOf(mem, d, i) in own && p != TabOf(mem, d, i)
    ensures var u := TabOf(mem, d, i);
            var mem' := mem[u := SetEntry(mem[u], j, w)];
            && Owns(mem', d, own[p := Page(i, j)], WHOLE)
            && (forall x: nat, y: nat :: User(x, y) ==> Seen(mem', d, x, y) == if (x, y) == (i, j) then Bytes(mem[p]) else Seen(mem, d, x, y))
            && (forall x: nat, y: nat :: User(x, y) ==> Rights(mem', d, x, y) == if (x, y) == (i, j) then Through(Word(mem, d, i), w) else Rights(mem, d, x, y))
            && Word(mem', d, i) == Word(mem, d, i)
  {
    hide Entry, SetEntry, Present, Target, UserBit, WriteBit;
    var u := TabOf(mem, d, i);
    assert RoleIs(own, u, Tab(i)) && Justified(mem, d, u, own[u], WHOLE) && Justified(mem, d, d, own[d], WHOLE);
    var mem' := mem[u := SetEntry(mem[u], j, w)];
    forall x: nat | x < USER_PDES ensures HasTab(mem', d, x) == HasTab(mem, d, x) && TabOf(mem', d, x) == TabOf(mem, d, x) { }
    assert Word(mem', u, j) == w;
    forall x: nat, y: nat | User(x, y)
      ensures Rights(mem', d, x, y) == if (x, y) == (i, j) then Through(Word(mem, d, i), w) else Rights(mem, d, x, y)
    {
      assert Word(mem', d, x) == Word(mem, d, x);
      if HasTab(mem, d, x) {
        assert RoleIs(own, TabOf(mem, d, x), Tab(x));
        assert (x, y) != (i, j) ==> Word(mem', TabOf(mem, d, x), y) == Word(mem, TabOf(mem, d, x), y);
      }
    }
    forall x: nat, y: nat | In(WHOLE, x, y) && (x, y) != (i, j)
      ensures HasPage(mem', d, x, y) == HasPage(mem, d, x, y)
      ensures HasPage(mem, d, x, y) ==> PageOf(mem', d, x, y) == PageOf(mem, d, x, y) && mem'[PageOf(mem, d, x, y)] == mem[PageOf(mem, d, x, y)]
    {
      if HasTab(mem, d, x) {
        assert RoleIs(own, TabOf(mem, d, x), Tab(x));
        assert Word(mem', TabOf(mem, d, x), y) == Word(mem, TabOf(mem, d, x), y);
        if HasPage(mem, d, x, y) { assert RoleIs(own, PageOf(mem, d, x, y), Page(x, y)); }
      }
    }
    AddPageOwns(mem, mem', d, own, i, j, p);
  }

  lemma AddPageOwns(mem: Memory, mem': Memory, d: nat, own: Owner, i: nat, j: nat, p: nat)
    requires Owns(mem, d, own, WHOLE) && User(i, j) && !HasPage(mem, d, i, j) && 0 < p < |mem| && p !in own && |mem'| == |mem|
    requires HasPage(mem', d, i, j) && PageOf(mem', d, i, j) == p
    requires forall x: nat :: x < USER_PDES ==> HasTab(mem', d, x) == HasTab(mem, d, x) && TabOf(mem', d, x) == TabOf(mem, d, x)
    requires forall x: nat, y: nat :: In(WHOLE, x, y) && (x, y) != (i, j) ==> HasPage(mem', d, x, y) == HasPage(mem, d, x, y)
    requires forall x: nat, y: nat :: In(WHOLE, x, y) && (x, y) != (i, j) && HasPage(mem, d, x, y) ==> PageOf(mem', d, x, y) == PageOf(mem, d, x, y)
    ensures Owns(mem', d, own[p := Page(i, j)], WHOLE)
  {
    hide Entry, Present, Target, TabOf, PageOf, HasTab, HasPage, Word;
    var own' := own[p := Page(i, j)];
    assert In(WHOLE, i, j);
    forall f | f in own' ensures Justified(mem', d, f, own'[f], WHOLE) {
      if f != p { assert Justified(mem, d, f, own[f], WHOLE); }
    }
  }

  /** `paddr | attr | PG_PRESENT` for an aligned address and flag bits. */
  function Mapping(p: nat, attr: nat): uint32
    requires p < MAX_FRAMES && attr < PG_SIZE
  {
    PG_SIZE * p + if attr % 2 == 1 then attr else attr + 1
  }

  lemma MappingFacts(p: nat, attr: nat)
    requires p < MAX_FRAMES && attr < PG_SIZE
    ensures Present(Mapping(p, attr)) && Target(Mapping(p, attr)) == p
    ensures UserBit(Mapping(p, attr)) == UserBit(attr) && WriteBit(Mapping(p, attr)) == WriteBit(attr)
  {
    var m := if attr % 2 == 1 then attr else attr + 1;
    FlagBits(p, m);
    assert m / 2 == attr / 2 && m / 4 == attr / 4;
  }

  /** map_page with frames available: page (i, j) shows frame `p` with the rights of
      `attr`, every other user page is as before, and the space still owns its frames
      alone.  A table that had to be added restricts nothing. */
  method MapPage(ram: Ram, d: nat, va: uint32, p: nat, attr: nat, ghost own: Owner) returns (ghost own': Owner)
    requires ram.Valid() && Owns(ram.mem, d, own, WHOLE) && (forall f :: f in own ==> f !in ram.free)
    requires va < KERNEL_BASE && attr < PG_SIZE && 0 < p < |ram.mem| && p !in own && p !in ram.free
    requires !HasPage(ram.mem, d, PdeNr(va), PteNr(va))
    requires HasTab(ram.mem, d, PdeNr(va)) || ram.free != []
    modifies ram
    ensures ram.Valid() && Owns(ram.mem, d, own', WHOLE) && (forall f :: f in own' ==> f !in ram.free)
    ensures own'.Keys <= own.Keys + {p} + Elems(old(ram.free)) && Kept(old(ram.mem), ram.mem, own'.Keys - {p})
    ensures forall x: nat, y: nat :: User(x, y) ==>
              Seen(ram.mem, d, x, y) == if (x, y) == (PdeNr(va), PteNr(va)) then Bytes(old(ram.mem)[p]) else Seen(old(ram.mem), d, x, y)
    ensures forall x: nat, y: nat :: User(x, y) ==>
              Rights(ram.mem, d, x, y) == if (x, y) == (PdeNr(va), PteNr(va)) then Through(Word(ram.mem, d, PdeNr(va)), attr) else Rights(old(ram.mem), d, x, y)
    ensures if HasTab(old(ram.mem), d, PdeNr(va)) then Word(ram.mem, d, PdeNr(va)) == Word(old(ram.mem), d, PdeNr(va))
            else UserBit(Word(ram.mem, d, PdeNr(va))) && WriteBit(Word(ram.mem, d, PdeNr(va)))
  {
    hide Entry, SetEntry, Present, Target, Chain, HasTab, HasPage, TabOf, PageOf, Seen, Rights, Word, UserBit, WriteBit;
    own' := own;
    var i, j := PdeNr(va), PteNr(va);
    assert User(i, j);
    ghost var was := ram.mem;
    DirWord(ram.mem, d, own, i);
    if !Present(Entry(ram.mem[d], i)) {
      NewTable(ram, d, i, own, p);
      own' := own[old(ram.free)[0] := Tab(i)];
    }
    ghost var mid := ram.mem;
    MappingFacts(p, attr);
    AddPage(mid, d, own', i, j, p, Mapping(p, attr));
    DirWord(ram.mem, d, own', i);
    var u := Target(Entry(ram.mem[d], i));
    ram.Poke(u, SetEntry(ram.mem[u], j, Mapping(p, attr)));
    own' := own'[p := Page(i, j)];
  }

  lemma DirWord(mem: Memory, d: nat, own: Owner, i: nat)
    requires Owns(mem, d, own, WHOLE) && i < USER_PDES
    ensures d < |mem| && d in own && (HasTab(mem, d, i) <==> Present(Entry(mem[d], i))) && TabOf(mem, d, i) == Target(Entry(mem[d], i))
  {
    hide Entry, Present, Target;
    assert Justified(mem, d, d, own[d], WHOLE);
  }

  /** The part of map_page that adds a page table. */
  method NewTable(ram: Ram, d: nat, i: nat, ghost own: Owner, ghost p: nat)
    requires ram.Valid() && Owns(ram.mem, d, own, WHOLE) && (forall f :: f in own ==> f !in ram.free)
    requires i < USER_PDES && !HasTab(ram.mem, d, i) && ram.free != [] && p !in ram.free
    modifies ram
    ensures ram.Valid() && ram.free == old(ram.free)[1..] && old(ram.free)[0] != p
    ensures var own' := own[old(ram.free)[0] := Tab(i)];
            Owns(ram.mem, d, own', WHOLE) && (forall f :: f in own' ==> f !in ram.free) && Kept(old(ram.mem), ram.mem, own'.Keys)
    ensures HasTab(ram.mem, d, i) && TabOpen(ram.mem, d, i) && SeenSame(old(ram.mem), ram.mem, d)
    ensures forall y: nat :: y < ENTRIES ==> !HasPage(ram.mem, d, i, y)
  {
    hide Entry, SetEntry, Present, Target, EntryFor, Chain, HasTab, HasPage, TabOf, PageOf, Seen, Owns, Rights, TabOpen;
    ghost var u0 := ram.free[0];
    ChainHead(ram.mem, ram.freeList, ram.free);
    ChainFacts(ram.mem, ram.freeList, ram.free);
    AddTable(ram.mem, d, own, i, u0);
    DirWord(ram.mem, d, own, i);
    var pa := ram.Palloc();
    var u := pa / PG_SIZE;
    ram.Poke(u, ZeroFrame());
    ram.Poke(d, SetEntry(ram.mem[d], i, EntryFor(u)));
  }

  // ------------------------------------------------------------------
  // pgdir_setrange
  // ------------------------------------------------------------------

  datatype MaybeByte = NoByte | Byte(b: byte)

  /** The byte a program under `d` reads at a user address. */
  function ByteAt(mem: Memory, d: nat, va: uint32): MaybeByte {
    var s := Seen(mem, d, PdeNr(va), PteNr(va));
    if s.Bytes? then Byte(s.f[Offset(va)]) else NoByte
  }

  function Fill(f: Frame, o: nat, n: nat, val: byte): (r: Frame)
    requires o + n <= PG_SIZE
    ensures forall x :: 0 <= x < PG_SIZE ==> r[x] == if o <= x < o + n then val else f[x]
  {
    seq(PG_SIZE, x requires 0 <= x < PG_SIZE => if o <= x < o + n then val else f[x])
  }

  /** Two addresses are on the same page exactly if their page numbers agree. */
  lemma SamePage(a: uint32, b: uint32)
    ensures (PdeNr(a), PteNr(a)) == (PdeNr(b), PteNr(b)) <==> a / PG_SIZE == b / PG_SIZE
    ensures a < KERNEL_BASE ==> User(PdeNr(a), PteNr(a))
  {
    assert a / 0x40_0000 == a / PG_SIZE / ENTRIES && b / 0x40_0000 == b / PG_SIZE / ENTRIES;
  }

  /** A memset inside one page, seen through the directory. */
  lemma FillSeen(mem: Memory, d: nat, own: Owner, va: uint32, n: nat, val: byte, a: uint32)
    requires Owns(mem, d, own, WHOLE) && va < KERNEL_BASE && a < KERNEL_BASE && Offset(va) + n <= PG_SIZE
    requires HasPage(mem, d, PdeNr(va), PteNr(va))
    ensures var p := PageOf(mem, d, PdeNr(va), PteNr(va));
            && p < |mem|
            && ByteAt(mem[p := Fill(mem[p], Offset(va), n, val)], d, a) ==
               if va <= a < va + n then Byte(val) else ByteAt(mem, d, a)
  {
    hide Entry, Present, Target, HasTab, HasPage, TabOf, PageOf, Owns, PdeNr, PteNr;
    var (i, j) := (PdeNr(va), PteNr(va));
    SamePage(va, a);
    SamePage(a, a);
    SamePage(va, va);
    var p := PageOf(mem, d, i, j);
    SeenPage(mem, d, own, i, j);
    var f := Fill(mem[p], Offset(va), n, val);
    StoreHere(mem, d, own, i, j, f, PdeNr(a), PteNr(a));
  }

  lemma SeenPage(mem: Memory, d: nat, own: Owner, i: nat, j: nat)
    requires Owns(mem, d, own, WHOLE) && User(i, j) && HasPage(mem, d, i, j)
    ensures var p := PageOf(mem, d, i, j); 0 < p < |mem| && p in own && Seen(mem, d, i, j) == Bytes(mem[p])
  {
    hide Entry, Present, Target, HasTab;
    assert In(WHOLE, i, j) && RoleIs(own, PageOf(mem, d, i, j), Page(i, j));
  }

  /** A store into a page keeps the structure of the space. */
  lemma FillOwns(mem: Memory, d: nat, own: Owner, i: nat, j: nat, f: Frame)
    requires Owns(mem, d, own, WHOLE) && User(i, j) && HasPage(mem, d, i, j) && PageOf(mem, d, i, j) < |mem|
    ensures Owns(mem[PageOf(mem, d, i, j) := f], d, own, WHOLE)
    ensures forall x: nat, y: nat :: User(x, y) ==> Rights(mem[PageOf(mem, d, i, j) := f], d, x, y) == Rights(mem, d, x, y)
  {
    hide Entry, Present, Target, UserBit, WriteBit;
    var p := PageOf(mem, d, i, j);
    var mem' := mem[p := f];
    assert In(WHOLE, i, j) && RoleIs(own, p, Page(i, j));
    forall x: nat | x < USER_PDES ensures HasTab(mem', d, x) == HasTab(mem, d, x) && TabOf(mem', d, x) == TabOf(mem, d, x) { }
    forall x: nat, y: nat | In(WHOLE, x, y)
      ensures HasPage(mem', d, x, y) == HasPage(mem, d, x, y) && (HasPage(mem, d, x, y) ==> PageOf(mem', d, x, y) == PageOf(mem, d, x, y))
    {
      assert HasTab(mem, d, x) ==> RoleIs(own, TabOf(mem, d, x), Tab(x));
    }
    forall x: nat, y: nat | User(x, y) ensures Rights(mem', d, x, y) == Rights(mem, d, x, y) {
      assert Word(mem', d, x) == Word(mem, d, x);
      if HasTab(mem, d, x) {
        assert RoleIs(own, TabOf(mem, d, x), Tab(x));
        assert Word(mem', TabOf(mem, d, x), y) == Word(mem, TabOf(mem, d, x), y);
      }
    }
    FillOwnsStill(mem, mem', d, own);
  }

  lemma FillOwnsStill(mem: Memory, mem': Memory, d: nat, own: Owner)
    requires Owns(mem, d, own, WHOLE) && |mem'| == |mem|
    requires forall x: nat :: x < USER_PDES ==> HasTab(mem', d, x) == HasTab(mem, d, x) && TabOf(mem', d, x) == TabOf(mem, d, x)
    requires forall x: nat, y: nat :: In(WHOLE, x, y) ==>
               HasPage(mem', d, x, y) == HasPage(mem, d, x, y) && (HasPage(mem, d, x, y) ==> PageOf(mem', d, x, y) == PageOf(mem, d, x, y))
    ensures Owns(mem', d, own, WHOLE)
  {
    hide Entry, Present, Target, HasTab, HasPage, TabOf, PageOf, Word;
    forall f | f in own ensures Justified(mem', d, f, own[f], WHOLE) { assert Justified(mem, d, f, own[f], WHOLE); }
  }

  /** After `done` bytes of the range have been set. */
  ghost predicate Ranged(was: Memory, mem: Memory, d: nat, va: uint32, done: nat, val: byte) {
    forall a: uint32 {:trigger ByteAt(mem, d, a)} :: a < KERNEL_BASE ==>
      ByteAt(mem, d, a) == if va <= a < va + done then Byte(val) else ByteAt(was, d, a)
  }

  datatype MaybeFrame = NoFrame | Frame(frame: nat)

  /** page_frame_ptr, for any address: the two-level walk that the processor does,
      or NULL where it would fault. */
  method PageFrame(ram: Ram, d: nat, va: uint32) returns (r: MaybeFrame)
    requires d < |ram.mem| && (HasTab(ram.mem, d, PdeNr(va)) ==> TabOf(ram.mem, d, PdeNr(va)) < |ram.mem|)
    ensures r == NoFrame <==> !HasPage(ram.mem, d, PdeNr(va), PteNr(va))
    ensures r != NoFrame ==> r.frame == PageOf(ram.mem, d, PdeNr(va), PteNr(va))
  {
    hide Entry, Present, Target;
    var i, j := PdeNr(va), PteNr(va);
    assert i < ENTRIES && j < ENTRIES;
    var pde := Entry(ram.mem[d], i);
    if !Present(pde) { return NoFrame; }
    var pte := Entry(ram.mem[Target(pde)], j);
    if !Present(pte) { return NoFrame; }
    r := MaybeFrame.Frame(Target(pte));
  }

  /** What the walk meets in an address space of its own. */
  lemma Walked(mem: Memory, d: nat, own: Owner, va: uint32)
    requires Owns(mem, d, own, WHOLE) && va < KERNEL_BASE
    ensures d < |mem| && (HasTab(mem, d, PdeNr(va)) ==> TabOf(mem, d, PdeNr(va)) < |mem|)
    ensures HasPage(mem, d, PdeNr(va), PteNr(va)) <==> ByteAt(mem, d, va) != NoByte
    ensures HasPage(mem, d, PdeNr(va), PteNr(va)) ==>
              PageOf(mem, d, PdeNr(va), PteNr(va)) < |mem| && PageOf(mem, d, PdeNr(va), PteNr(va)) in own
  {
    hide Entry, Present, Target;
    var i, j := PdeNr(va), PteNr(va);
    SamePage(va, va);
    DirWord(mem, d, own, i);
    if HasTab(mem, d, i) {
      var t := TabOf(mem, d, i);
      assert RoleIs(own, t, Tab(i)) && Justified(mem, d, t, own[t], WHOLE);
      if HasPage(mem, d, i, j) { SeenPage(mem, d, own, i, j); }
    }
  }

  /** pgdir_setrange: true exactly if every byte of the range is mapped; then the
      range holds `val` and no other byte of the space has changed.  When it
      fails, the bytes before the first unmapped one have been set. */
  method SetRange(ram: Ram, d: nat, va: uint32, val: byte, n: nat, ghost own: Owner) returns (ok: bool)
    requires ram.Valid() && Owns(ram.mem, d, own, WHOLE) && (forall f :: f in own ==> f !in ram.free)
    requires va + n <= KERNEL_BASE
    modifies ram`mem
    ensures ram.Valid() && Owns(ram.mem, d, own, WHOLE) && Kept(old(ram.mem), ram.mem, own.Keys)
    ensures ok ==> Ranged(old(ram.mem), ram.mem, d, va, n, val)
    ensures ok ==> forall a: uint32 :: va <= a < va + n ==> ByteAt(old(ram.mem), d, a) != NoByte
    ensures !ok ==> exists done: nat :: done < n && Ranged(old(ram.mem), ram.mem, d, va, done, val) && ByteAt(old(ram.mem), d, va + done) == NoByte
  {
    hide Owns, ByteAt, HasPage, HasTab, TabOf, PageOf, PdeNr, PteNr, Chain;
    ghost var was := ram.mem;
    var done := 0;
    while done < n
      invariant 0 <= done <= n && ram.Valid() && Owns(ram.mem, d, own, WHOLE) && Kept(was, ram.mem, own.Keys)
      invariant Ranged(was, ram.mem, d, va, done, val)
      invariant forall a: uint32 :: va <= a < va + done ==> ByteAt(was, d, a) != NoByte
    {
      var vp := va + done;
      Walked(ram.mem, d, own, vp);
      var r := PageFrame(ram, d, vp);
      assert ByteAt(ram.mem, d, vp) == ByteAt(was, d, vp);
      if r == NoFrame {
        return false;
      }
      var p := r.frame;
      var per := PG_SIZE - Offset(vp);
      if per > n - done {
        per := n - done;
      }
      ghost var mem := ram.mem;
      ram.Poke(p, Fill(ram.mem[p], Offset(vp), per, val));
      RangeStep(was, mem, ram.mem, d, own, va, done, per, val);
      done := done + per;
    }
    ok := true;
  }

  lemma RangeStep(was: Memory, mem: Memory, mem': Memory, d: nat, own: Owner, va: uint32, done: nat, per: nat, val: byte)
    requires Owns(mem, d, own, WHOLE) && Ranged(was, mem, d, va, done, val) && va + done + per <= KERNEL_BASE && per > 0
    requires Offset(va + done) + per <= PG_SIZE && HasPage(mem, d, PdeNr(va + done), PteNr(va + done))
    requires var p := PageOf(mem, d, PdeNr(va + done), PteNr(va + done));
             p < |mem| && mem' == mem[p := Fill(mem[p], Offset(va + done), per, val)]
    ensures Ranged(was, mem', d, va, done + per, val) && Owns(mem', d, own, WHOLE)
    ensures forall a: uint32 :: va + done <= a < va + done + per ==> ByteAt(was, d, a) != NoByte
  {
    hide Owns, HasPage, PageOf, PdeNr, PteNr, ByteAt, Fill;
    var vp := va + done;
    SamePage(vp, vp);
    FillOwns(mem, d, own, PdeNr(vp), PteNr(vp), Fill(mem[PageOf(mem, d, PdeNr(vp), PteNr(vp))], Offset(vp), per, val));
    forall a: uint32 | a < KERNEL_BASE ensures ByteAt(mem', d, a) == if va <= a < va + done + per then Byte(val) else ByteAt(was, d, a) {
      FillSeen(mem, d, own, vp, per, val, a);
      assert ByteAt(mem, d, a) == if va <= a < va + done then Byte(val) else ByteAt(was, d, a);
    }
    forall a: uint32 | vp <= a < vp + per ensures ByteAt(was, d, a) != NoByte {
      OnePage(vp, per, a);
      SeenPage(mem, d, own, PdeNr(vp), PteNr(vp));
      MappedByte(mem, d, vp, a);
      assert ByteAt(mem, d, a) == ByteAt(was, d, a);
    }
  }

  lemma OnePage(vp: uint32, per: nat, a: uint32)
    requires Offset(vp) + per <= PG_SIZE && vp <= a < vp + per
    ensures PdeNr(a) == PdeNr(vp) && PteNr(a) == PteNr(vp)
  {
    SamePage(vp, a);
  }

  lemma MappedByte(mem: Memory, d: nat, vp: uint32, a: uint32)
    requires PdeNr(a) == PdeNr(vp) && PteNr(a) == PteNr(vp) && Seen(mem, d, PdeNr(vp), PteNr(vp)).Bytes?
    ensures ByteAt(mem, d, a) != NoByte
  {
  }
}
