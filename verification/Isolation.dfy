/** Parent and child after pgdir_copy: two address spaces that never see each
    other's stores. */
module Isolation {
  import opened Frames
  import opened AddressSpace
  import opened AddressSpaceCode
  import opened AddressSpaceMap

  /** Two address spaces with frames of their own. */
  ghost predicate Two(mem: Memory, s: nat, os: Owner, d: nat, od: Owner) {
    Owns(mem, s, os, WHOLE) && Owns(mem, d, od, WHOLE) && os.Keys !! od.Keys
  }

  /** A change to frames that an address space does not use leaves it alone. */
  lemma OwnsKept(mem: Memory, mem': Memory, d: nat, own: Owner, fs: set<nat>)
    requires Owns(mem, d, own, WHOLE) && Kept(mem, mem', fs) && own.Keys !! fs
    ensures Owns(mem', d, own, WHOLE) && SeenSame(mem, mem', d)
  {
    hide Entry, Present, Target, UserBit, WriteBit;
    assert Justified(mem, d, d, own[d], WHOLE) && mem'[d] == mem[d];
    forall x: nat | x < USER_PDES ensures HasTab(mem', d, x) == HasTab(mem, d, x) && TabOf(mem', d, x) == TabOf(mem, d, x) { }
    forall x: nat, y: nat | In(WHOLE, x, y)
      ensures HasPage(mem', d, x, y) == HasPage(mem, d, x, y) && (HasPage(mem, d, x, y) ==> PageOf(mem', d, x, y) == PageOf(mem, d, x, y))
      ensures HasPage(mem, d, x, y) ==> PageOf(mem, d, x, y) < |mem| && mem'[PageOf(mem, d, x, y)] == mem[PageOf(mem, d, x, y)]
      ensures Rights(mem', d, x, y) == Rights(mem, d, x, y)
    {
      assert Word(mem', d, x) == Word(mem, d, x);
      if HasTab(mem, d, x) {
        var t := TabOf(mem, d, x);
        assert RoleIs(own, t, Tab(x)) && Justified(mem, d, t, own[t], WHOLE);
        assert Word(mem', t, y) == Word(mem, t, y);
        if HasPage(mem, d, x, y) {
          var p := PageOf(mem, d, x, y);
          assert RoleIs(own, p, Page(x, y)) && Justified(mem, d, p, own[p], WHOLE);
        }
      }
    }
    FillOwnsStill(mem, mem', d, own);
  }

  // ------------------------------------------------------------------
  // Accesses in user mode
  // ------------------------------------------------------------------

  /** What a program reads at a user address; NoByte where it faults. */
  function UserByte(mem: Memory, d: nat, a: uint32): MaybeByte {
    if UserReads(mem, d, PdeNr(a), PteNr(a)) then ByteAt(mem, d, a) else NoByte
  }

  predicate MayWrite(mem: Memory, d: nat, a: uint32) { UserWrites(mem, d, PdeNr(a), PteNr(a)) }

  lemma SameBytes(mem: Memory, mem': Memory, d: nat, a: uint32)
    requires SeenSame(mem, mem', d) && a < KERNEL_BASE
    ensures UserByte(mem', d, a) == UserByte(mem, d, a) && MayWrite(mem', d, a) == MayWrite(mem, d, a)
  {
    hide Seen, UserReads, UserWrites;
    SamePage(a, a);
    assert Rights(mem', d, PdeNr(a), PteNr(a)) == Rights(mem, d, PdeNr(a), PteNr(a));
    assert Seen(mem', d, PdeNr(a), PteNr(a)) == Seen(mem, d, PdeNr(a), PteNr(a));
  }

  /** A store of byte `b` at a user address by the child or the parent. */
  datatype Store = Store(child: bool, va: uint32, b: byte)

  /** What it does to memory; without the right to write it faults. */
  function Stored(mem: Memory, dir: nat, st: Store): Memory {
    var p := PageOf(mem, dir, PdeNr(st.va), PteNr(st.va));
    if MayWrite(mem, dir, st.va) && p < |mem| then mem[p := Fill(mem[p], Offset(st.va), 1, st.b)] else mem
  }

  function After(mem: Memory, s: nat, d: nat, run: seq<Store>): Memory
    decreases |run|
  {
    if run == [] then mem else After(Stored(mem, if run[0].child then d else s, run[0]), s, d, run[1..])
  }

  /** A memory of one's own: the last byte one has stored at `a` oneself, if one may. */
  function Own(was: MaybeByte, may: bool, run: seq<Store>, child: bool, a: uint32): MaybeByte
    decreases |run|
  {
    if run == [] then was
    else Own(if run[0].child == child && run[0].va == a && may then Byte(run[0].b) else was, may, run[1..], child, a)
  }

  /** One store, seen through the directory it was made through. */
  lemma StoredHere(mem: Memory, d: nat, own: Owner, st: Store)
    requires Owns(mem, d, own, WHOLE) && st.va < KERNEL_BASE
    ensures var mem' := Stored(mem, d, st);
            && Owns(mem', d, own, WHOLE) && Kept(mem, mem', own.Keys)
            && (forall a: uint32 :: a < KERNEL_BASE ==> MayWrite(mem', d, a) == MayWrite(mem, d, a))
            && (forall a: uint32 :: a < KERNEL_BASE ==>
                 UserByte(mem', d, a) == if a == st.va && MayWrite(mem, d, a) then Byte(st.b) else UserByte(mem, d, a))
  {
    hide Owns, HasPage, PageOf, ByteAt, Fill, PdeNr, PteNr;
    var (i, j) := (PdeNr(st.va), PteNr(st.va));
    SamePage(st.va, st.va);
    if MayWrite(mem, d, st.va) {
      SeenPage(mem, d, own, i, j);
      FillOwns(mem, d, own, i, j, Fill(mem[PageOf(mem, d, i, j)], Offset(st.va), 1, st.b));
      var mem' := Stored(mem, d, st);
      forall a: uint32 | a < KERNEL_BASE
        ensures MayWrite(mem', d, a) == MayWrite(mem, d, a)
        ensures UserByte(mem', d, a) == if a == st.va then Byte(st.b) else UserByte(mem, d, a)
      {
        SamePage(a, a);
        assert Rights(mem', d, PdeNr(a), PteNr(a)) == Rights(mem, d, PdeNr(a), PteNr(a));
        FillSeen(mem, d, own, st.va, 1, st.b, a);
      }
    }
  }

  /** And seen through the other one: not at all. */
  lemma StoredThere(mem: Memory, s: nat, os: Owner, d: nat, od: Owner, st: Store)
    requires Two(mem, s, os, d, od) && st.va < KERNEL_BASE
    ensures var mem' := Stored(mem, d, st);
            && Two(mem', s, os, d, od)
            && forall a: uint32 :: a < KERNEL_BASE ==> UserByte(mem', s, a) == UserByte(mem, s, a) && MayWrite(mem', s, a) == MayWrite(mem, s, a)
  {
    hide Owns, UserByte, MayWrite, Kept, Stored, SeenSame;
    StoredHere(mem, d, od, st);
    var mem' := Stored(mem, d, st);
    OwnsKept(mem, mem', s, os, od.Keys);
    forall a: uint32 | a < KERNEL_BASE ensures UserByte(mem', s, a) == UserByte(mem, s, a) && MayWrite(mem', s, a) == MayWrite(mem, s, a) {
      SameBytes(mem, mem', s, a);
    }
  }

  predicate UserStores(run: seq<Store>) {
    forall i :: 0 <= i < |run| ==> run[i].va < KERNEL_BASE
  }

  /** Over every sequence of stores each side sees exactly its own. */
  lemma {:induction false} EachSeesItsOwn(mem: Memory, s: nat, os: Owner, d: nat, od: Owner, run: seq<Store>, a: uint32)
    requires Two(mem, s, os, d, od) && UserStores(run) && a < KERNEL_BASE
    ensures var end := After(mem, s, d, run);
            && Two(end, s, os, d, od)
            && UserByte(end, s, a) == Own(UserByte(mem, s, a), MayWrite(mem, s, a), run, false, a)
            && UserByte(end, d, a) == Own(UserByte(mem, d, a), MayWrite(mem, d, a), run, true, a)
    decreases |run|
  {
    hide Owns, UserByte, MayWrite, Stored;
    if run != [] {
      var st := run[0];
      if st.child {
        StoredHere(mem, d, od, st);
        StoredThere(mem, s, os, d, od, st);
      } else {
        StoredHere(mem, s, os, st);
        StoredThere(mem, d, od, s, os, st);
      }
      EachSeesItsOwn(Stored(mem, if st.child then d else s, st), s, os, d, od, run[1..], a);
    }
  }

  /** pgdir_copy makes two address spaces that show the same bytes.  The parent's rights
      are as before; the child may read and write every page that the parent has. */
  lemma CopyMakesTwo(was: Memory, free0: seq<nat>, s: nat, os: Owner, mem: Memory, free: seq<nat>, d: nat, own: Owner)
    requires Copying(was, free0, s, mem, free, d, own, WHOLE) && Owns(was, s, os, WHOLE) && forall f :: f in os ==> f !in free0
    ensures Two(mem, s, os, d, own)
    ensures forall a: uint32 :: a < KERNEL_BASE ==> UserByte(mem, s, a) == UserByte(was, s, a) && MayWrite(mem, s, a) == MayWrite(was, s, a)
    ensures forall a: uint32 :: a < KERNEL_BASE ==> UserByte(mem, d, a) == ByteAt(was, s, a) && MayWrite(mem, d, a) == (ByteAt(was, s, a) != NoByte)
  {
    hide Owns, Growing, Apart, ByteAt, Seen, Kept, SeenSame, HasPage, UserByte, MayWrite;
    CopyingOwns(was, free0, s, mem, free, d, own);
    OwnsKept(was, mem, s, os, own.Keys);
    forall a: uint32 | a < KERNEL_BASE
      ensures UserByte(mem, s, a) == UserByte(was, s, a) && MayWrite(mem, s, a) == MayWrite(was, s, a)
      ensures UserByte(mem, d, a) == ByteAt(was, s, a) && MayWrite(mem, d, a) == (ByteAt(was, s, a) != NoByte)
    {
      SameBytes(was, mem, s, a);
      ChildByte(was, free0, s, os, mem, free, d, own, a);
    }
  }

  lemma ChildByte(was: Memory, free0: seq<nat>, s: nat, os: Owner, mem: Memory, free: seq<nat>, d: nat, own: Owner, a: uint32)
    requires Copying(was, free0, s, mem, free, d, own, WHOLE) && Owns(was, s, os, WHOLE) && a < KERNEL_BASE
    ensures UserByte(mem, d, a) == ByteAt(was, s, a) && MayWrite(mem, d, a) == (ByteAt(was, s, a) != NoByte)
  {
    hide Owns, Copying, HasPage, Seen;
    SamePage(a, a);
    CopySeen(was, free0, s, mem, free, d, own, PdeNr(a), PteNr(a));
    CopyRights(was, free0, s, mem, free, d, own, PdeNr(a), PteNr(a));
    Walked(was, s, os, a);
  }

  /** Isolation: after pgdir_copy and any sequence of stores by parent and child, the
      parent reads what it did, changed by its own stores, and the child what the parent
      held at the copy, changed by its own; each fails where it has not the right. */
  lemma CopyIsIsolated(was: Memory, free0: seq<nat>, s: nat, os: Owner, mem: Memory, free: seq<nat>, d: nat, own: Owner,
                       run: seq<Store>, a: uint32)
    requires Copying(was, free0, s, mem, free, d, own, WHOLE) && Owns(was, s, os, WHOLE) && forall f :: f in os ==> f !in free0
    requires UserStores(run) && a < KERNEL_BASE
    ensures var end := After(mem, s, d, run);
            && UserByte(end, s, a) == Own(UserByte(was, s, a), MayWrite(was, s, a), run, false, a)
            && UserByte(end, d, a) == Own(ByteAt(was, s, a), ByteAt(was, s, a) != NoByte, run, true, a)
            && Two(end, s, os, d, own)
  {
    hide Owns, Growing, Apart, ByteAt, Stored, UserByte, MayWrite;
    CopyMakesTwo(was, free0, s, os, mem, free, d, own);
    EachSeesItsOwn(mem, s, os, d, own, run, a);
  }
}
