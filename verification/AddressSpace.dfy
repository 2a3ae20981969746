/** Two-level page tables (32-bit paging, section 4.3 of the Intel SDM volume 3A)
    as kernel/mem/pgtab.c builds, copies and frees them. */
module AddressSpace {
  import opened Frames

  const USER_PDES: nat := 512       // USER_LAST_PDE_NR + 1
  const KERNEL_LAST_PDE: nat := 767

  predicate Present(w: uint32) { w % 2 == 1 }

  /** PG_US_USER and PG_RW_RW. */
  predicate UserBit(w: uint32) { w / 4 % 2 == 1 }
  predicate WriteBit(w: uint32) { w / 2 % 2 == 1 }
  predicate OpenWord(w: uint32) { UserBit(w) && WriteBit(w) }

  /** PDE_PADDR and PTE_PADDR, as a frame number. */
  function Target(w: uint32): nat { w / PG_SIZE }

  /** `paddr | PG_RW_RW | PG_US_USER | PG_PRESENT` */
  function EntryFor(f: nat): uint32
    requires f < MAX_FRAMES
  {
    PG_SIZE * f + 7
  }

  lemma Halved(a: nat, m: nat)
    ensures (2 * a + m) / 2 == a + m / 2 && (2 * a + m) % 2 == m % 2
  {
  }

  /** The frame and the flags of an entry do not mix. */
  lemma FlagBits(f: nat, m: nat)
    requires f < MAX_FRAMES && m < PG_SIZE
    ensures var w := PG_SIZE * f + m; w / PG_SIZE == f && w % 2 == m % 2 && w / 2 % 2 == m / 2 % 2 && w / 4 % 2 == m / 4 % 2
  {
    Halved(2048 * f, m);
    Halved(1024 * f, m / 2);
    Halved(512 * f, m / 2 / 2);
    Quartered(PG_SIZE * f + m);
    Quartered(m);
  }

  lemma Quartered(w: nat)
    ensures w / 4 == w / 2 / 2
  {
  }

  lemma EntryForFacts(f: nat)
    requires f < MAX_FRAMES
    ensures Present(EntryFor(f)) && Target(EntryFor(f)) == f && !Present(0) && OpenWord(EntryFor(f))
  {
    FlagBits(f, 7);
  }

  /** Word `i` of frame `f`. */
  function Word(mem: Memory, f: nat, i: nat): uint32 {
    if f < |mem| && i < ENTRIES then Entry(mem[f], i) else 0
  }

  predicate HasTab(mem: Memory, d: nat, i: nat) { Present(Word(mem, d, i)) }

  function TabOf(mem: Memory, d: nat, i: nat): nat { Target(Word(mem, d, i)) }

  predicate HasPage(mem: Memory, d: nat, i: nat, j: nat) {
    HasTab(mem, d, i) && Present(Word(mem, TabOf(mem, d, i), j))
  }

  function PageOf(mem: Memory, d: nat, i: nat, j: nat): nat { Target(Word(mem, TabOf(mem, d, i), j)) }

  predicate TabOpen(mem: Memory, d: nat, i: nat) { HasTab(mem, d, i) && OpenWord(Word(mem, d, i)) }

  /** What the processor lets a program do at page `j` of table `i` (section 4.6 of the
      Intel SDM volume 3A): both entries must let user mode through, and to write, both
      must be writable. */
  predicate UserReads(mem: Memory, d: nat, i: nat, j: nat) {
    HasPage(mem, d, i, j) && UserBit(Word(mem, d, i)) && UserBit(Word(mem, TabOf(mem, d, i), j))
  }

  predicate UserWrites(mem: Memory, d: nat, i: nat, j: nat) {
    UserReads(mem, d, i, j) && WriteBit(Word(mem, d, i)) && WriteBit(Word(mem, TabOf(mem, d, i), j))
  }

  // ------------------------------------------------------------------
  // Who uses a frame
  // ------------------------------------------------------------------

  /** What a frame is for in an address space. */
  datatype Role = Dir | Tab(i: nat) | Page(i: nat, j: nat)

  type Owner = map<nat, Role>

  predicate RoleIs(own: Owner, f: nat, r: Role) {
    f in own && own[f] == r
  }

  /** How far a walk over the tables has got: `t` tables, and the pages before
      entry `j` of table `i`. */
  datatype Bound = Bound(t: nat, i: nat, j: nat)

  predicate In(b: Bound, x: nat, y: nat) {
    y < ENTRIES && (x < b.i || (x == b.i && y < b.j))
  }

  predicate Justified(mem: Memory, d: nat, f: nat, r: Role, b: Bound) {
    && 0 < f < |mem|
    && match r
       case Dir => f == d
       case Tab(x) => x < b.t && HasTab(mem, d, x) && TabOf(mem, d, x) == f
       case Page(x, y) => In(b, x, y) && HasPage(mem, d, x, y) && PageOf(mem, d, x, y) == f
  }

  /** The directory `d`, its tables and its pages are frames of their own, each
      with one role, and `own` names them all. */
  ghost predicate Owns(mem: Memory, d: nat, own: Owner, b: Bound) {
    && |mem| <= MAX_FRAMES && RoleIs(own, d, Dir)
    && (forall x: nat {:trigger HasTab(mem, d, x)} :: x < b.t && HasTab(mem, d, x) ==> RoleIs(own, TabOf(mem, d, x), Tab(x)))
    && (forall x: nat, y: nat {:trigger HasPage(mem, d, x, y)} :: In(b, x, y) && HasPage(mem, d, x, y) ==> RoleIs(own, PageOf(mem, d, x, y), Page(x, y)))
    && (forall f :: f in own ==> Justified(mem, d, f, own[f], b))
  }

  const WHOLE: Bound := Bound(USER_PDES, USER_PDES, 0)

  /** The address space of `d` uses no frame of `fs`. */
  ghost predicate Apart(mem: Memory, d: nat, fs: set<nat>) {
    && d < |mem| && d !in fs
    && (forall x: nat {:trigger HasTab(mem, d, x)} :: x < USER_PDES && HasTab(mem, d, x) ==> TabOf(mem, d, x) < |mem| && TabOf(mem, d, x) !in fs)
    && (forall x: nat, y: nat {:trigger HasPage(mem, d, x, y)} :: x < USER_PDES && y < ENTRIES && HasPage(mem, d, x, y) ==>
          PageOf(mem, d, x, y) < |mem| && PageOf(mem, d, x, y) !in fs)
  }

  /** As far as `b`, `d` now maps the same pages as `s` did, with the same bytes, and
      user mode may read and write all of them. */
  ghost predicate Copied(was: Memory, s: nat, mem: Memory, d: nat, b: Bound) {
    && (forall x: nat {:trigger HasTab(mem, d, x)} {:trigger HasTab(was, s, x)} :: x < b.t ==>
          (HasTab(mem, d, x) <==> HasTab(was, s, x)) && (HasTab(mem, d, x) ==> TabOpen(mem, d, x)))
    && (forall x: nat, y: nat {:trigger HasPage(mem, d, x, y)} {:trigger HasPage(was, s, x, y)} :: In(b, x, y) ==>
          && (HasPage(mem, d, x, y) <==> HasPage(was, s, x, y))
          && (HasPage(mem, d, x, y) ==> SameFrame(was, PageOf(was, s, x, y), mem, PageOf(mem, d, x, y)) && UserWrites(mem, d, x, y)))
  }

  predicate SameFrame(was: Memory, p: nat, mem: Memory, q: nat) {
    p < |was| && q < |mem| && was[p] == mem[q]
  }

  /** Frames outside `fs` are as they were. */
  predicate Kept(was: Memory, mem: Memory, fs: set<nat>) {
    |mem| == |was| && forall f :: 0 <= f < |mem| && f !in fs ==> mem[f] == was[f]
  }

  // ------------------------------------------------------------------
  // Growing a copy
  // ------------------------------------------------------------------

  ghost predicate Growing(was: Memory, s: nat, mem: Memory, d: nat, own: Owner, b: Bound) {
    && Owns(mem, d, own, b) && Kept(was, mem, own.Keys) && Apart(was, s, own.Keys) && Copied(was, s, mem, d, b)
  }

  /** A missing source table is skipped. */
  lemma GrowSkipTab(was: Memory, s: nat, mem: Memory, d: nat, own: Owner, i: nat)
    requires Growing(was, s, mem, d, own, Bound(i, i, 0)) && !HasTab(was, s, i) && !HasTab(mem, d, i)
    ensures Growing(was, s, mem, d, own, Bound(i + 1, i + 1, 0))
  {
    hide Word, TabOf, PageOf, HasTab, TabOpen, UserWrites;
  }

  /** Entry `x` of the directory leads to the same table with the same rights. */
  ghost predicate SameTab(mem: Memory, mem': Memory, d: nat, x: nat) {
    (HasTab(mem', d, x) <==> HasTab(mem, d, x)) && TabOf(mem', d, x) == TabOf(mem, d, x) && (TabOpen(mem', d, x) <==> TabOpen(mem, d, x))
  }

  /** Page `y` of table `x` is the same frame with the same contents and rights. */
  ghost predicate SameReach(mem: Memory, mem': Memory, d: nat, x: nat, y: nat) {
    && (HasPage(mem', d, x, y) <==> HasPage(mem, d, x, y)) && (UserWrites(mem', d, x, y) <==> UserWrites(mem, d, x, y))
    && (HasPage(mem, d, x, y) ==>
          PageOf(mem', d, x, y) == PageOf(mem, d, x, y) && SameFrame(mem, PageOf(mem, d, x, y), mem', PageOf(mem, d, x, y)))
  }

  /** Up to `b` the walk from `d` finds all this the same. */
  ghost predicate SameWalk(mem: Memory, mem': Memory, d: nat, b: Bound) {
    && |mem'| == |mem|
    && (forall x: nat {:trigger HasTab(mem, d, x)} {:trigger HasTab(mem', d, x)} :: x < b.t ==> SameTab(mem, mem', d, x))
    && (forall x: nat, y: nat {:trigger HasPage(mem, d, x, y)} {:trigger HasPage(mem', d, x, y)} :: In(b, x, y) ==> SameReach(mem, mem', d, x, y))
  }

  lemma OwnsWalk(mem: Memory, mem': Memory, d: nat, own: Owner, b: Bound)
    requires Owns(mem, d, own, b) && SameWalk(mem, mem', d, b)
    ensures Owns(mem', d, own, b)
  {
    hide HasTab, HasPage, TabOf, PageOf, TabOpen, UserWrites;
    forall x: nat | x < b.t && HasTab(mem', d, x) ensures RoleIs(own, TabOf(mem', d, x), Tab(x)) { assert SameTab(mem, mem', d, x); }
    forall x: nat, y: nat | In(b, x, y) && HasPage(mem', d, x, y) ensures RoleIs(own, PageOf(mem', d, x, y), Page(x, y)) {
      assert SameReach(mem, mem', d, x, y);
    }
    forall f | f in own ensures Justified(mem', d, f, own[f], b) {
      assert Justified(mem, d, f, own[f], b);
      match own[f]
      case Dir =>
      case Tab(x) => assert SameTab(mem, mem', d, x);
      case Page(x, y) => assert SameReach(mem, mem', d, x, y);
    }
  }

  lemma CopiedWalk(was: Memory, s: nat, mem: Memory, mem': Memory, d: nat, b: Bound)
    requires Copied(was, s, mem, d, b) && SameWalk(mem, mem', d, b)
    ensures Copied(was, s, mem', d, b)
  {
    hide HasTab, HasPage, TabOf, PageOf, TabOpen, UserWrites;
    forall x: nat | x < b.t
      ensures (HasTab(mem', d, x) <==> HasTab(was, s, x)) && (HasTab(mem', d, x) ==> TabOpen(mem', d, x))
    {
      assert SameTab(mem, mem', d, x) && (HasTab(mem, d, x) <==> HasTab(was, s, x));
    }
    forall x: nat, y: nat | In(b, x, y)
      ensures HasPage(mem', d, x, y) <==> HasPage(was, s, x, y)
      ensures HasPage(mem', d, x, y) ==> SameFrame(was, PageOf(was, s, x, y), mem', PageOf(mem', d, x, y)) && UserWrites(mem', d, x, y)
    {
      assert SameReach(mem, mem', d, x, y) && (HasPage(mem, d, x, y) <==> HasPage(was, s, x, y));
    }
  }

  lemma OwnsAddTab(mem: Memory, d: nat, own: Owner, i: nat, u: nat)
    requires Owns(mem, d, own, Bound(i, i, 0)) && HasTab(mem, d, i) && TabOf(mem, d, i) == u && 0 < u < |mem| && u !in own
    ensures Owns(mem, d, own[u := Tab(i)], Bound(i + 1, i, 0))
  {
    hide HasTab, HasPage, TabOf, PageOf, TabOpen, UserWrites;
  }

  lemma OwnsAddPage(mem: Memory, d: nat, own: Owner, i: nat, j: nat, p: nat)
    requires Owns(mem, d, own, Bound(i + 1, i, j)) && j < ENTRIES
    requires HasPage(mem, d, i, j) && PageOf(mem, d, i, j) == p && 0 < p < |mem| && p !in own
    ensures Owns(mem, d, own[p := Page(i, j)], Bound(i + 1, i, j + 1))
  {
    hide HasTab, HasPage, TabOf, PageOf, TabOpen, UserWrites;
  }

  /** A fresh frame `u` becomes table `i`. */
  lemma GrowTab(was: Memory, s: nat, mem: Memory, d: nat, own: Owner, i: nat, u: nat)
    requires Growing(was, s, mem, d, own, Bound(i, i, 0)) && HasTab(was, s, i) && i < USER_PDES
    requires 0 < u < |mem| && u !in own && Apart(was, s, own.Keys + {u})
    ensures Growing(was, s, mem[d := SetEntry(mem[d], i, EntryFor(u))], d, own[u := Tab(i)], Bound(i + 1, i, 0))
  {
    hide Entry, SetEntry, Present, Target, EntryFor, HasTab, HasPage, TabOf, PageOf, Word, TabOpen, UserWrites;
    var mem', b := mem[d := SetEntry(mem[d], i, EntryFor(u))], Bound(i, i, 0);
    TabWalk(mem, d, own, i, u);
    OwnsWalk(mem, mem', d, own, b);
    CopiedWalk(was, s, mem, mem', d, b);
    OwnsAddTab(mem', d, own, i, u);
    assert (own[u := Tab(i)]).Keys == own.Keys + {u};
  }

  lemma TabWalk(mem: Memory, d: nat, own: Owner, i: nat, u: nat)
    requires Owns(mem, d, own, Bound(i, i, 0)) && i < USER_PDES && 0 < u < |mem|
    ensures var mem' := mem[d := SetEntry(mem[d], i, EntryFor(u))];
            SameWalk(mem, mem', d, Bound(i, i, 0)) && HasTab(mem', d, i) && TabOf(mem', d, i) == u && TabOpen(mem', d, i)
  {
    hide Entry, SetEntry, Present, Target, EntryFor, UserBit, WriteBit;
    EntryForFacts(u);
    var mem' := mem[d := SetEntry(mem[d], i, EntryFor(u))];
    forall x: nat | x < i ensures SameTab(mem, mem', d, x) && Word(mem', d, x) == Word(mem, d, x) { }
    forall x: nat, y: nat | In(Bound(i, i, 0), x, y) ensures SameReach(mem, mem', d, x, y) {
      assert Word(mem', d, x) == Word(mem, d, x);
      if HasTab(mem, d, x) {
        assert RoleIs(own, TabOf(mem, d, x), Tab(x));
        if HasPage(mem, d, x, y) { OtherFrame(mem, d, own, Bound(i, i, 0), x, y); }
      }
    }
  }

  /** A page is neither the directory nor a table. */
  lemma OtherFrame(mem: Memory, d: nat, own: Owner, b: Bound, x: nat, y: nat)
    requires Owns(mem, d, own, b) && In(b, x, y) && HasPage(mem, d, x, y)
    ensures RoleIs(own, PageOf(mem, d, x, y), Page(x, y)) && PageOf(mem, d, x, y) < |mem| && PageOf(mem, d, x, y) != d
  {
    hide HasTab, TabOf, PageOf, HasPage;
    assert Justified(mem, d, PageOf(mem, d, x, y), own[PageOf(mem, d, x, y)], b);
  }

  /** The table `u` being filled changes at entry `j`; page `p`, new or `u` itself,
      may change too. */
  lemma PageWalk(mem: Memory, mem': Memory, d: nat, own: Owner, i: nat, j: nat, p: nat)
    requires Owns(mem, d, own, Bound(i + 1, i, j)) && HasTab(mem, d, i) && j < ENTRIES && |mem'| == |mem|
    requires forall f :: 0 <= f < |mem| && f != TabOf(mem, d, i) && f != p ==> mem'[f] == mem[f]
    requires p !in own
    requires forall y: nat :: y < ENTRIES && y != j ==> Word(mem', TabOf(mem, d, i), y) == Word(mem, TabOf(mem, d, i), y)
    ensures SameWalk(mem, mem', d, Bound(i + 1, i, j))
    ensures HasTab(mem', d, i) && TabOf(mem', d, i) == TabOf(mem, d, i)
  {
    hide Entry, Present, Target, UserBit, WriteBit;
    var b := Bound(i + 1, i, j);
    assert mem'[d] == mem[d];
    forall x: nat | x < b.t ensures SameTab(mem, mem', d, x) && Word(mem', d, x) == Word(mem, d, x) { }
    forall x: nat, y: nat | In(b, x, y) ensures SameReach(mem, mem', d, x, y) {
      assert Word(mem', d, x) == Word(mem, d, x);
      if HasTab(mem, d, x) {
        assert RoleIs(own, TabOf(mem, d, x), Tab(x));
        if x != i { assert mem'[TabOf(mem, d, x)] == mem[TabOf(mem, d, x)]; }
        assert Word(mem', TabOf(mem, d, x), y) == Word(mem, TabOf(mem, d, x), y);
        if HasPage(mem, d, x, y) { OtherFrame(mem, d, own, b, x, y); }
      }
    }
  }

  /** A fresh frame `p` becomes page `j` of table `i`, with the source's bytes. */
  lemma GrowPage(was: Memory, s: nat, mem: Memory, d: nat, own: Owner, i: nat, j: nat, p: nat)
    requires Growing(was, s, mem, d, own, Bound(i + 1, i, j)) && HasTab(mem, d, i) && i < USER_PDES && j < ENTRIES
    requires HasPage(was, s, i, j)
    requires 0 < p < |mem| && p !in own && Apart(was, s, own.Keys + {p})
    ensures var u := TabOf(mem, d, i);
            && u < |mem| && PageOf(was, s, i, j) < |mem|
            && var mem' := mem[u := SetEntry(mem[u], j, EntryFor(p))][p := mem[PageOf(was, s, i, j)]];
               && Growing(was, s, mem', d, own[p := Page(i, j)], Bound(i + 1, i, j + 1))
               && HasTab(mem', d, i) && TabOf(mem', d, i) == u
  {
    hide Entry, SetEntry, Present, Target, EntryFor, HasTab, TabOf, PageOf, TabOpen, UserWrites;
    var u, b := TabOf(mem, d, i), Bound(i + 1, i, j);
    assert RoleIs(own, u, Tab(i)) && Justified(mem, d, u, own[u], b);
    var q := PageOf(was, s, i, j);
    var mem' := mem[u := SetEntry(mem[u], j, EntryFor(p))][p := mem[q]];
    EntryForFacts(p);
    PageWalk(mem, mem', d, own, i, j, p);
    OwnsWalk(mem, mem', d, own, b);
    CopiedWalk(was, s, mem, mem', d, b);
    PageIs(mem', d, i, j, p);
    OwnsAddPage(mem', d, own, i, j, p);
    assert (own[p := Page(i, j)]).Keys == own.Keys + {p};
    assert SameFrame(was, q, mem', p);
  }

  lemma PageIs(mem: Memory, d: nat, i: nat, j: nat, p: nat)
    requires HasTab(mem, d, i) && p < MAX_FRAMES && Word(mem, TabOf(mem, d, i), j) == EntryFor(p)
    ensures HasPage(mem, d, i, j) && PageOf(mem, d, i, j) == p && (TabOpen(mem, d, i) ==> UserWrites(mem, d, i, j))
  {
    EntryForFacts(p);
  }

  /** An absent source page leaves a zero entry. */
  lemma GrowSkipPage(was: Memory, s: nat, mem: Memory, d: nat, own: Owner, i: nat, j: nat)
    requires Growing(was, s, mem, d, own, Bound(i + 1, i, j)) && HasTab(mem, d, i) && i < USER_PDES && j < ENTRIES
    requires HasTab(was, s, i) && !HasPage(was, s, i, j)
    ensures var u := TabOf(mem, d, i);
            && u < |mem|
            && var mem' := mem[u := SetEntry(mem[u], j, 0)];
               && Growing(was, s, mem', d, own, Bound(i + 1, i, j + 1)) && HasTab(mem', d, i) && TabOf(mem', d, i) == u
  {
    hide Entry, SetEntry, Target, HasTab, TabOf, PageOf, TabOpen, UserWrites;
    var u, b := TabOf(mem, d, i), Bound(i + 1, i, j);
    assert RoleIs(own, u, Tab(i)) && Justified(mem, d, u, own[u], b);
    var mem' := mem[u := SetEntry(mem[u], j, 0)];
    PageWalk(mem, mem', d, own, i, j, 0);
    OwnsWalk(mem, mem', d, own, b);
    CopiedWalk(was, s, mem, mem', d, b);
    assert !HasPage(mem', d, i, j);
  }

  lemma GrowRow(was: Memory, s: nat, mem: Memory, d: nat, own: Owner, i: nat)
    requires Growing(was, s, mem, d, own, Bound(i + 1, i, ENTRIES))
    ensures Growing(was, s, mem, d, own, Bound(i + 1, i + 1, 0))
  {
    hide HasTab, HasPage, TabOf, PageOf, TabOpen, UserWrites;
  }
}
