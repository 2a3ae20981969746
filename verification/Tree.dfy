/** The directory tree as the file system calls change it, and what `nlink`
    counts: kernel/syscall/sysfs.c, create_file and sys_unlink. */
module Tree {
  import opened Volume
  import opened Directory

  const ROOT: nat := 1

  /** An inode as the tree sees it; `slots` is empty unless it is a directory. */
  datatype Node = Node(typ: InodeType, nlink: nat, slots: seq<Slot>)

  type Nodes = seq<Node>

  /** A directory that has not been removed. */
  predicate LinkedDir(t: Nodes, d: int) {
    0 < d < |t| && t[d].typ == DIRECTORY && t[d].nlink > 0
  }

  // ------------------------------------------------------------------
  // Counting entries
  // ------------------------------------------------------------------

  /** A live entry other than "." naming `i`. */
  predicate Counts(e: Slot, i: nat) {
    Live(e) && e.inum == i && e.name != DOT
  }

  function One(e: Slot, i: nat): nat { if Counts(e, i) then 1 else 0 }

  function Refs(s: seq<Slot>, i: nat): nat {
    if s == [] then 0 else Refs(s[..|s| - 1], i) + One(s[|s| - 1], i)
  }

  function Give(n: Node, i: nat): nat {
    if n.typ == DIRECTORY && n.nlink > 0 then Refs(n.slots, i) else 0
  }

  /** The entries other than "." that name `i` in directories with nlink > 0. */
  function Count(t: Nodes, i: nat): nat {
    if t == [] then 0 else Count(t[..|t| - 1], i) + Give(t[|t| - 1], i)
  }

  lemma {:induction false} CountSet(t: Nodes, d: nat, n: Node, i: nat)
    requires d < |t|
    ensures Count(t[d := n], i) == Count(t, i) - Give(t[d], i) + Give(n, i)
  {
    hide Give;
    var m := |t| - 1;
    if d == m {
      assert t[d := n][..m] == t[..m];
    } else {
      CountSet(t[..m], d, n, i);
      assert t[d := n][..m] == t[..m][d := n];
    }
  }

  lemma {:induction false} RefsSet(s: seq<Slot>, k: nat, e: Slot, i: nat)
    requires k < |s|
    ensures Refs(s[k := e], i) == Refs(s, i) - One(s[k], i) + One(e, i)
  {
    hide One;
    var m := |s| - 1;
    if k == m {
      assert s[k := e][..m] == s[..m];
    } else {
      RefsSet(s[..m], k, e, i);
      assert s[k := e][..m] == s[..m][k := e];
    }
  }

  lemma RefsLinked(s: seq<Slot>, e: Slot, i: nat)
    ensures Refs(Linked(s, e), i) == Refs(s, i) + One(e, i)
  {
    var f := FirstFree(s);
    if f < |s| {
      RefsSet(s, f, e, i);
    } else {
      assert Linked(s, e)[..|s|] == s;
    }
  }

  lemma {:induction false} RefsNone(s: seq<Slot>, i: nat)
    requires forall j :: 0 <= j < |s| ==> !Counts(s[j], i)
    ensures Refs(s, i) == 0
  {
    if s != [] { RefsNone(s[..|s| - 1], i); }
  }

  lemma RefsOne(s: seq<Slot>, k: nat, i: nat)
    requires k < |s| && Counts(s[k], i) && forall j :: 0 <= j < |s| && j != k ==> !Counts(s[j], i)
    ensures Refs(s, i) == 1
  {
    RefsNone(s[k := FREE], i);
    RefsSet(s, k, FREE, i);
  }

  lemma {:induction false} CountNone(t: Nodes, i: nat)
    requires forall d :: 0 <= d < |t| ==> Give(t[d], i) == 0
    ensures Count(t, i) == 0
  {
    if t != [] { CountNone(t[..|t| - 1], i); }
  }

  lemma {:induction false} CountAtLeast(t: Nodes, d: nat, i: nat)
    requires d < |t|
    ensures Count(t, i) >= Give(t[d], i)
  {
    if d < |t| - 1 { CountAtLeast(t[..|t| - 1], d, i); }
  }

  lemma {:induction false} RefsAtLeast(s: seq<Slot>, k: nat, i: nat)
    requires k < |s| && Counts(s[k], i)
    ensures Refs(s, i) >= 1
  {
    if k < |s| - 1 { RefsAtLeast(s[..|s| - 1], k, i); }
  }

  // ------------------------------------------------------------------
  // The invariant
  // ------------------------------------------------------------------

  /** The link law. */
  ghost predicate Law(t: Nodes) {
    forall i :: 0 < i < |t| && t[i].typ != NONE ==> t[i].nlink == Count(t, i) + if i == ROOT then 1 else 0
  }

  /** "." and ".." occupy the first two slots, and no name occurs twice. */
  predicate DirOk(t: Nodes, d: int)
    requires 0 <= d < |t|
  {
    var s := t[d].slots;
    && |s| >= 2 && s[0] == Slot(d, DOT) && s[1].name == DOTDOT && Live(s[1]) && UniqueNames(s)
  }

  function Parent(t: Nodes, d: int): nat {
    if 0 <= d < |t| && |t[d].slots| >= 2 then t[d].slots[1].inum else 0
  }

  /** Entry `k` of directory `p`, after the dots, names `c`. */
  predicate Entry(t: Nodes, p: int, k: int, c: int) {
    LinkedDir(t, p) && 2 <= k < |t[p].slots| && Live(t[p].slots[k]) && t[p].slots[k].inum == c
  }

  ghost predicate HasChild(t: Nodes, p: int, c: int) {
    exists k :: Entry(t, p, k, c)
  }

  /** ".." of a linked directory is the linked directory that has an entry for it;
      the root is its own parent. */
  ghost predicate ParentOk(t: Nodes, d: int) {
    && LinkedDir(t, Parent(t, d))
    && (if d == ROOT then Parent(t, d) == ROOT else HasChild(t, Parent(t, d), d))
  }

  /** Entries after the dots name inodes in use, never the root. */
  ghost predicate AllInUse(t: Nodes) {
    forall p, k, c :: Entry(t, p, k, c) ==> ROOT < c < |t| && t[c].typ != NONE
  }

  /** No inode has two entries after the dots. */
  ghost predicate Once(t: Nodes) {
    forall p, k, c, q, l :: Entry(t, p, k, c) && Entry(t, q, l, c) ==> p == q && k == l
  }

  /** A directory that has been removed but is still in use. */
  predicate RemovedDir(t: Nodes, d: int) {
    0 < d < |t| && t[d].typ == DIRECTORY && t[d].nlink == 0
  }

  /** It holds its dots and nothing else. */
  predicate Husk(t: Nodes, d: int)
    requires 0 <= d < |t|
  {
    var s := t[d].slots;
    && |s| >= 2 && s[0] == Slot(d, DOT) && s[1].name == DOTDOT && 0 < s[1].inum < |t| && Empty(s)
  }

  ghost predicate Husks(t: Nodes) {
    forall d :: RemovedDir(t, d) ==> Husk(t, d)
  }

  predicate Empty(s: seq<Slot>) {
    forall k :: 2 <= k < |s| ==> !Live(s[k])
  }

  ghost predicate Ok(t: Nodes) {
    && LinkedDir(t, ROOT) && t[0].typ == NONE
    && (forall d :: LinkedDir(t, d) ==> DirOk(t, d))
    && (forall d :: LinkedDir(t, d) ==> ParentOk(t, d))
    && AllInUse(t) && Once(t) && Law(t) && Husks(t)
  }

  /** Nothing but an entry after the dots, or "..", counts. */
  lemma Counted(t: Nodes, d: nat, j: nat, i: nat)
    requires Ok(t) && LinkedDir(t, d) && j < |t[d].slots| && Counts(t[d].slots[j], i)
    ensures Entry(t, d, j, i) || (j == 1 && i == Parent(t, d))
  {
    hide Law, ParentOk;
    assert DirOk(t, d);
  }

  /** A free inode is named by nobody. */
  lemma {:induction false} FreeUnnamed(t: Nodes, x: nat)
    requires Ok(t) && x < |t| && t[x].typ == NONE
    ensures Count(t, x) == 0
  {
    hide Law;
    forall d | 0 <= d < |t| ensures Give(t[d], x) == 0 {
      if t[d].typ == DIRECTORY && t[d].nlink > 0 {
        assert ParentOk(t, d);
        forall j | 0 <= j < |t[d].slots| ensures !Counts(t[d].slots[j], x) {
          if Counts(t[d].slots[j], x) { Counted(t, d, j, x); }
        }
        RefsNone(t[d].slots, x);
      }
    }
    CountNone(t, x);
  }

  // ------------------------------------------------------------------
  // create_file
  // ------------------------------------------------------------------

  /** What create_file has checked when it makes inode `x` the entry `name` of
      directory `d`. */
  predicate CanCreate(t: Nodes, d: nat, name: Name, x: nat, typ: InodeType) {
    && LinkedDir(t, d) && x < |t| && x != 0 && t[x].typ == NONE && typ != NONE
    && Resolve(t[d].slots, name) == 0 && name != DOT && name != DOTDOT
  }

  /** The tree with `x` entered in `d`. */
  function Entered(t: Nodes, d: nat, name: Name, x: nat): Nodes
    requires d < |t|
  {
    t[d := t[d].(slots := Linked(t[d].slots, Slot(x, name)))]
  }

  function Dots(x: nat, d: nat): seq<Slot> { [Slot(x, DOT), Slot(d, DOTDOT)] }

  function Create(t: Nodes, d: nat, name: Name, x: nat, typ: InodeType): Nodes
    requires d < |t| && x < |t|
  {
    var n := Node(typ, 1, if typ == DIRECTORY then Dots(x, d) else []);
    var u := Entered(t, d, name, x)[x := n];
    if typ == DIRECTORY then u[d := u[d].(nlink := u[d].nlink + 1)] else u
  }

  lemma CreateCount(t: Nodes, d: nat, name: Name, x: nat, typ: InodeType, i: nat)
    requires CanCreate(t, d, name, x, typ)
    ensures Count(Create(t, d, name, x, typ), i) ==
            Count(t, i) + (if i == x then 1 else 0) + (if typ == DIRECTORY && i == d then 1 else 0)
  {
    hide Count, Linked;
    var e := Slot(x, name);
    var m := t[d].(slots := Linked(t[d].slots, e));
    CountSet(t, d, m, i);
    RefsLinked(t[d].slots, e, i);
    var n := Node(typ, 1, if typ == DIRECTORY then Dots(x, d) else []);
    CountSet(Entered(t, d, name, x), x, n, i);
    var u := Entered(t, d, name, x)[x := n];
    if typ == DIRECTORY {
      CountSet(u, d, u[d].(nlink := u[d].nlink + 1), i);
      DotsRefs(x, d, i);
    }
  }

  lemma DotsRefs(x: nat, d: nat, i: nat)
    ensures Refs(Dots(x, d), i) == if i == d && d != 0 then 1 else 0
  {
    var s := Dots(x, d);
    assert s[..1] == [Slot(x, DOT)] && s[..1][..0] == [];
    assert Refs([], i) == 0 && Refs(s[..1], i) == One(s[0], i);
  }

  lemma CreateLaw(t: Nodes, d: nat, name: Name, x: nat, typ: InodeType)
    requires Ok(t) && CanCreate(t, d, name, x, typ)
    ensures Law(Create(t, d, name, x, typ))
  {
    hide Count, Linked;
    var u := Create(t, d, name, x, typ);
    FreeUnnamed(t, x);
    forall i | 0 < i < |u| && u[i].typ != NONE ensures u[i].nlink == Count(u, i) + if i == ROOT then 1 else 0 {
      CreateCount(t, d, name, x, typ, i);
    }
  }

  /** The entries after the dots are the old ones and the new one. */
  lemma CreateEntry(t: Nodes, d: nat, name: Name, x: nat, typ: InodeType, p: int, k: int, c: int)
    requires Ok(t) && CanCreate(t, d, name, x, typ)
    ensures Entry(Create(t, d, name, x, typ), p, k, c) <==>
            Entry(t, p, k, c) || (p == d && k == FirstFree(t[d].slots) && c == x)
    ensures FirstFree(t[d].slots) >= 2
  {
    hide Law, ParentOk, FirstFree;
    assert DirOk(t, d);
    var s, f := t[d].slots, FirstFree(t[d].slots);
    assert Live(s[0]) && Live(s[1]);
    assert f < |s| ==> !Live(s[f]);
  }

  lemma CreateDirs(t: Nodes, d: nat, name: Name, x: nat, typ: InodeType, q: int)
    requires Ok(t) && CanCreate(t, d, name, x, typ)
    ensures var u := Create(t, d, name, x, typ);
            && (LinkedDir(u, q) <==> LinkedDir(t, q) || (q == x && typ == DIRECTORY))
            && (LinkedDir(u, q) ==> DirOk(u, q) && Parent(u, q) == if q == x then d else Parent(t, q))
  {
    hide Law, ParentOk, FirstFree, Entries;
    var u := Create(t, d, name, x, typ);
    assert DirOk(t, d);
    if q == d {
      LookupIsMap(t[d].slots, name);
      LinkIsInsert(t[d].slots, Slot(x, name));
      CreateEntry(t, d, name, x, typ, d, 0, 0);
    } else if LinkedDir(t, q) {
      assert DirOk(t, q);
    }
  }

  lemma CreateEntries(t: Nodes, d: nat, name: Name, x: nat, typ: InodeType)
    requires Ok(t) && CanCreate(t, d, name, x, typ)
    ensures var u := Create(t, d, name, x, typ); AllInUse(u) && Once(u)
  {
    hide Law, DirOk, Entry, Parent, ParentOk, FirstFree;
    var u, f := Create(t, d, name, x, typ), FirstFree(t[d].slots);
    forall p, k, c ensures Entry(u, p, k, c) <==> Entry(t, p, k, c) || (p == d && k == f && c == x) {
      CreateEntry(t, d, name, x, typ, p, k, c);
    }
    assert forall p, k :: !Entry(t, p, k, x);
  }

  lemma CreateParent(t: Nodes, d: nat, name: Name, x: nat, typ: InodeType, q: int)
    requires Ok(t) && CanCreate(t, d, name, x, typ) && LinkedDir(Create(t, d, name, x, typ), q)
    ensures ParentOk(Create(t, d, name, x, typ), q)
  {
    hide Law, DirOk, Entry, Parent, FirstFree, Create, AllInUse, Once;
    var u := Create(t, d, name, x, typ);
    CreateDirs(t, d, name, x, typ, q);
    if q == x {
      CreateEntry(t, d, name, x, typ, d, FirstFree(t[d].slots), x);
      CreateDirs(t, d, name, x, typ, d);
    } else {
      assert ParentOk(t, q);
      CreateDirs(t, d, name, x, typ, Parent(t, q));
      if q != ROOT {
        var k :| Entry(t, Parent(t, q), k, q);
        CreateEntry(t, d, name, x, typ, Parent(t, q), k, q);
      }
    }
  }

  lemma CreateHusks(t: Nodes, d: nat, name: Name, x: nat, typ: InodeType)
    requires Ok(t) && CanCreate(t, d, name, x, typ)
    ensures Husks(Create(t, d, name, x, typ))
  {
    hide Law, ParentOk, AllInUse, Once, Linked, DirOk, Resolve;
    var u := Create(t, d, name, x, typ);
    forall q | RemovedDir(u, q) ensures Husk(u, q) { assert RemovedDir(t, q) && u[q] == t[q]; }
  }

  /** create_file keeps the tree well-formed and every link count right. */
  lemma CreateKeeps(t: Nodes, d: nat, name: Name, x: nat, typ: InodeType)
    requires Ok(t) && CanCreate(t, d, name, x, typ)
    ensures Ok(Create(t, d, name, x, typ))
  {
    hide Law, DirOk, ParentOk, AllInUse, Once, Husks;
    var u := Create(t, d, name, x, typ);
    CreateLaw(t, d, name, x, typ);
    CreateHusks(t, d, name, x, typ);
    CreateEntries(t, d, name, x, typ);
    forall q | LinkedDir(u, q) ensures DirOk(u, q) && ParentOk(u, q) {
      CreateDirs(t, d, name, x, typ, q);
      CreateParent(t, d, name, x, typ, q);
    }
  }

  // ------------------------------------------------------------------
  // sys_unlink
  // ------------------------------------------------------------------

  /** What sys_unlink has checked about entry `k` of directory `d`. */
  predicate CanUnlink(t: Nodes, d: nat, k: nat) {
    && LinkedDir(t, d) && k < |t[d].slots| && Live(t[d].slots[k])
    && t[d].slots[k].name != DOT && t[d].slots[k].name != DOTDOT
    && t[d].slots[k].inum < |t|
    && (t[t[d].slots[k].inum].typ == DIRECTORY ==> Empty(t[t[d].slots[k].inum].slots))
  }

  function Drop(n: nat): nat { if n > 0 then n - 1 else 0 }

  function Unlink(t: Nodes, d: nat, k: nat): Nodes
    requires d < |t| && k < |t[d].slots| && t[d].slots[k].inum < |t|
  {
    var x := t[d].slots[k].inum;
    var n := if t[x].typ == DIRECTORY then Drop(t[d].nlink) else t[d].nlink;
    var u := t[d := t[d].(slots := Unlinked(t[d].slots, k), nlink := n)];
    u[x := u[x].(nlink := Drop(u[x].nlink))]
  }

  lemma UnlinkFacts(t: Nodes, d: nat, k: nat)
    requires Ok(t) && CanUnlink(t, d, k)
    ensures var x := t[d].slots[k].inum;
            Entry(t, d, k, x) && x != d && t[x].nlink >= 1 && t[x].typ != NONE && x > 1
  {
    hide ParentOk, Count, Refs;
    var x := t[d].slots[k].inum;
    assert DirOk(t, d);
    assert k != 0 && k != 1;
    assert Entry(t, d, k, x);
    CountAtLeast(t, d, x);
    RefsAtLeast(t[d].slots, k, x);
  }

  /** Only the entry being removed counts for an empty directory `x`. */
  lemma OnlyEntry(t: Nodes, d: nat, k: nat, e: nat, j: nat)
    requires Ok(t) && CanUnlink(t, d, k) && t[t[d].slots[k].inum].typ == DIRECTORY
    requires LinkedDir(t, e) && j < |t[e].slots| && Counts(t[e].slots[j], t[d].slots[k].inum)
    ensures e == d && j == k
  {
    hide Law, Refs, Count;
    var x := t[d].slots[k].inum;
    UnlinkFacts(t, d, k);
    Counted(t, e, j, x);
    assert ParentOk(t, e);
  }

  lemma CountOne(t: Nodes, d: nat, i: nat)
    requires d < |t| && forall e :: 0 <= e < |t| && e != d ==> Give(t[e], i) == 0
    ensures Count(t, i) == Give(t[d], i)
  {
    var none := Node(NONE, 0, []);
    CountSet(t, d, none, i);
    CountNone(t[d := none], i);
  }

  lemma CountTwo(t: Nodes, d: nat, e: nat, i: nat)
    requires d < |t| && e < |t| && d != e
    ensures Count(t, i) >= Give(t[d], i) + Give(t[e], i)
  {
    var none := Node(NONE, 0, []);
    CountSet(t, d, none, i);
    CountAtLeast(t[d := none], e, i);
  }

  /** No other directory counts for an empty directory that is being removed. */
  lemma NoOtherGives(t: Nodes, d: nat, k: nat, e: nat)
    requires Ok(t) && CanUnlink(t, d, k) && t[t[d].slots[k].inum].typ == DIRECTORY && e < |t| && e != d
    ensures Give(t[e], t[d].slots[k].inum) == 0
  {
    hide Ok, Refs, Counts;
    var x := t[d].slots[k].inum;
    forall j | LinkedDir(t, e) && 0 <= j < |t[e].slots| ensures !Counts(t[e].slots[j], x) {
      if Counts(t[e].slots[j], x) { OnlyEntry(t, d, k, e, j); }
    }
    if LinkedDir(t, e) { RefsNone(t[e].slots, x); } else { ZeroFree(t); }
  }

  lemma ZeroFree(t: Nodes)
    requires Ok(t)
    ensures t[0].typ == NONE
  {
  }

  lemma OneGives(t: Nodes, d: nat, k: nat)
    requires Ok(t) && CanUnlink(t, d, k) && t[t[d].slots[k].inum].typ == DIRECTORY
    ensures Refs(t[d].slots, t[d].slots[k].inum) == 1
  {
    hide Ok, Refs;
    var x := t[d].slots[k].inum;
    forall j | 0 <= j < |t[d].slots| && j != k ensures !Counts(t[d].slots[j], x) {
      if Counts(t[d].slots[j], x) { OnlyEntry(t, d, k, d, j); }
    }
    RefsOne(t[d].slots, k, x);
  }

  /** A removed directory had exactly one link, the entry being removed, and its
      ".." is the only entry of its own that counts. */
  lemma EmptyHasOneLink(t: Nodes, d: nat, k: nat)
    requires Ok(t) && CanUnlink(t, d, k) && t[t[d].slots[k].inum].typ == DIRECTORY
    ensures var x := t[d].slots[k].inum; t[x].nlink == 1 && Parent(t, x) == d && LinkedDir(t, x)
  {
    hide Refs, Count, One, DirOk, Husks;
    var x := t[d].slots[k].inum;
    UnlinkFacts(t, d, k);
    forall e: nat | e < |t| && e != d ensures Give(t[e], x) == 0 { NoOtherGives(t, d, k, e); }
    CountOne(t, d, x);
    OneGives(t, d, k);
    assert ParentOk(t, x);
  }

  lemma EmptyRefs(t: Nodes, d: nat, x: nat, i: nat)
    requires LinkedDir(t, x) && DirOk(t, x) && Empty(t[x].slots) && Parent(t, x) == d
    ensures Refs(t[x].slots, i) == if i == d then 1 else 0
  {
    hide Refs;
    var s := t[x].slots;
    if i == d { RefsOne(s, 1, i); } else { RefsNone(s, i); }
  }

  /** A directory with a subdirectory keeps a link when it loses that one. */
  lemma ParentKeepsLink(t: Nodes, d: nat, k: nat)
    requires Ok(t) && CanUnlink(t, d, k) && t[t[d].slots[k].inum].typ == DIRECTORY
    ensures t[d].nlink >= 2
  {
    hide Refs, Count, One;
    var x := t[d].slots[k].inum;
    EmptyHasOneLink(t, d, k);
    assert DirOk(t, x) && ParentOk(t, d);
    EmptyRefs(t, d, x, d);
    CountAtLeast(t, x, d);
    if d != ROOT {
      var p := Parent(t, d);
      var l :| Entry(t, p, l, d);
      assert DirOk(t, p);
      assert t[p].slots[l].name != DOT;
      RefsAtLeast(t[p].slots, l, d);
      CountTwo(t, x, p, d);
    }
  }

  lemma UnlinkCount(t: Nodes, d: nat, k: nat, i: nat)
    requires Ok(t) && CanUnlink(t, d, k)
    ensures var x := t[d].slots[k].inum;
            Count(Unlink(t, d, k), i) + (if i == x then 1 else 0) + (if t[x].typ == DIRECTORY && i == d then 1 else 0) == Count(t, i)
  {
    hide Refs, Count, Law, ParentOk, Once, AllInUse;
    var x := t[d].slots[k].inum;
    UnlinkFacts(t, d, k);
    if t[x].typ == DIRECTORY {
      EmptyHasOneLink(t, d, k);
      ParentKeepsLink(t, d, k);
      assert DirOk(t, x);
      EmptyRefs(t, d, x, i);
    }
    var n := if t[x].typ == DIRECTORY then Drop(t[d].nlink) else t[d].nlink;
    var m := t[d].(slots := Unlinked(t[d].slots, k), nlink := n);
    CountSet(t, d, m, i);
    RefsSet(t[d].slots, k, FREE, i);
    CountSet(t[d := m], x, t[x].(nlink := Drop(t[x].nlink)), i);
  }

  lemma UnlinkLaw(t: Nodes, d: nat, k: nat)
    requires Ok(t) && CanUnlink(t, d, k)
    ensures Law(Unlink(t, d, k))
  {
    hide Count, ParentOk, Once, AllInUse, DirOk;
    var u := Unlink(t, d, k);
    UnlinkFacts(t, d, k);
    if t[t[d].slots[k].inum].typ == DIRECTORY { ParentKeepsLink(t, d, k); }
    forall i | 0 < i < |u| && u[i].typ != NONE ensures u[i].nlink == Count(u, i) + if i == ROOT then 1 else 0 {
      UnlinkCount(t, d, k, i);
    }
  }

  lemma UnlinkDirs(t: Nodes, d: nat, k: nat, q: int)
    requires Ok(t) && CanUnlink(t, d, k)
    ensures var u, x := Unlink(t, d, k), t[d].slots[k].inum;
            && (LinkedDir(u, q) <==> LinkedDir(t, q) && q != x)
            && (LinkedDir(u, q) ==> DirOk(u, q) && Parent(u, q) == Parent(t, q))
  {
    hide Law, ParentOk, Count, Entries, Once, AllInUse;
    var x := t[d].slots[k].inum;
    UnlinkFacts(t, d, k);
    assert DirOk(t, d);
    if t[x].typ == DIRECTORY {
      EmptyHasOneLink(t, d, k);
      ParentKeepsLink(t, d, k);
    }
    UnlinkIsRemove(t[d].slots, k);
    assert LinkedDir(t, q) ==> DirOk(t, q);
  }

  lemma UnlinkEntry(t: Nodes, d: nat, k: nat, p: int, j: int, c: int)
    requires Ok(t) && CanUnlink(t, d, k)
    ensures Entry(Unlink(t, d, k), p, j, c) <==> Entry(t, p, j, c) && !(p == d && j == k)
  {
    hide Law, ParentOk, Count, Once, AllInUse, DirOk;
    UnlinkFacts(t, d, k);
    UnlinkDirs(t, d, k, p);
  }

  lemma UnlinkParent(t: Nodes, d: nat, k: nat, q: int)
    requires Ok(t) && CanUnlink(t, d, k) && LinkedDir(Unlink(t, d, k), q)
    ensures ParentOk(Unlink(t, d, k), q)
  {
    hide Law, DirOk, Parent, Unlink, AllInUse, Once;
    var x := t[d].slots[k].inum;
    UnlinkFacts(t, d, k);
    UnlinkDirs(t, d, k, q);
    assert ParentOk(t, q);
    UnlinkDirs(t, d, k, Parent(t, q));
    if q != ROOT {
      var l :| Entry(t, Parent(t, q), l, q);
      UnlinkEntry(t, d, k, Parent(t, q), l, q);
    }
  }

  lemma UnlinkEntries(t: Nodes, d: nat, k: nat)
    requires Ok(t) && CanUnlink(t, d, k)
    ensures var u := Unlink(t, d, k); AllInUse(u) && Once(u)
  {
    hide Law, DirOk, Entry, Parent, ParentOk;
    var u := Unlink(t, d, k);
    forall p, j, c ensures Entry(u, p, j, c) <==> Entry(t, p, j, c) && !(p == d && j == k) {
      UnlinkEntry(t, d, k, p, j, c);
    }
  }

  lemma UnlinkHusks(t: Nodes, d: nat, k: nat)
    requires Ok(t) && CanUnlink(t, d, k)
    ensures Husks(Unlink(t, d, k))
  {
    hide Law, AllInUse, Once, Count, UniqueNames;
    var u, x := Unlink(t, d, k), t[d].slots[k].inum;
    UnlinkFacts(t, d, k);
    if t[x].typ == DIRECTORY {
      EmptyHasOneLink(t, d, k);
      ParentKeepsLink(t, d, k);
      assert DirOk(t, x) && ParentOk(t, x);
    }
    forall q | RemovedDir(u, q) ensures Husk(u, q) { assert q != x ==> RemovedDir(t, q) && u[q] == t[q]; }
  }

  /** sys_unlink keeps the tree well-formed and every link count right. */
  lemma UnlinkKeeps(t: Nodes, d: nat, k: nat)
    requires Ok(t) && CanUnlink(t, d, k)
    ensures Ok(Unlink(t, d, k))
  {
    hide Law, DirOk, ParentOk, AllInUse, Once, Husks;
    var u := Unlink(t, d, k);
    UnlinkFacts(t, d, k);
    UnlinkLaw(t, d, k);
    UnlinkHusks(t, d, k);
    UnlinkEntries(t, d, k);
    forall q | LinkedDir(u, q) ensures DirOk(u, q) && ParentOk(u, q) {
      UnlinkDirs(t, d, k, q);
      UnlinkParent(t, d, k, q);
    }
    UnlinkDirs(t, d, k, ROOT);
  }

  // ------------------------------------------------------------------
  // The last reference to an unlinked inode
  // ------------------------------------------------------------------

  predicate CanRelease(t: Nodes, x: nat) {
    0 < x < |t| && t[x].typ != NONE && t[x].nlink == 0
  }

  function Release(t: Nodes, x: nat): Nodes
    requires x < |t|
  {
    t[x := Node(NONE, 0, [])]
  }

  lemma ReleaseLaw(t: Nodes, x: nat)
    requires Ok(t) && CanRelease(t, x)
    ensures Law(Release(t, x))
  {
    hide Count, DirOk, ParentOk, AllInUse, Once;
    var u := Release(t, x);
    forall i: nat ensures Count(u, i) == Count(t, i) { CountSet(t, x, Node(NONE, 0, []), i); }
  }

  lemma ReleaseEntry(t: Nodes, x: nat, p: int, k: int, c: int)
    requires CanRelease(t, x)
    ensures Entry(Release(t, x), p, k, c) <==> Entry(t, p, k, c)
  {
  }

  lemma ReleaseDir(t: Nodes, x: nat, q: int)
    requires Ok(t) && CanRelease(t, x) && LinkedDir(Release(t, x), q)
    ensures DirOk(Release(t, x), q) && ParentOk(Release(t, x), q)
  {
    hide Law, Once, AllInUse, Entry;
    var u := Release(t, x);
    assert DirOk(t, q) && ParentOk(t, q);
    if q != ROOT {
      var l :| Entry(t, Parent(t, q), l, q);
      ReleaseEntry(t, x, Parent(t, q), l, q);
    }
  }

  lemma ReleaseKeeps(t: Nodes, x: nat)
    requires Ok(t) && CanRelease(t, x)
    ensures Ok(Release(t, x))
  {
    hide Law, DirOk, ParentOk, Entry;
    var u := Release(t, x);
    ReleaseLaw(t, x);
    assert forall q :: RemovedDir(u, q) ==> RemovedDir(t, q) && u[q] == t[q];
    forall p, k, c ensures Entry(u, p, k, c) <==> Entry(t, p, k, c) { ReleaseEntry(t, x, p, k, c); }
    forall p, k, c | Entry(t, p, k, c) ensures c != x { EntryLinked(t, p, k, c); }
    forall q | LinkedDir(u, q) ensures DirOk(u, q) && ParentOk(u, q) { ReleaseDir(t, x, q); }
  }

  lemma EntryLinked(t: Nodes, p: int, k: int, c: int)
    requires Ok(t) && Entry(t, p, k, c)
    ensures 0 <= c < |t| && t[c].nlink > 0
  {
    hide Law, ParentOk;
    Unnamed(t, p, k, c);
  }

  lemma Unnamed(t: Nodes, p: nat, k: nat, c: nat)
    requires Ok(t) && Entry(t, p, k, c)
    ensures c < |t| && t[c].nlink > 0
  {
    hide Count, Refs, ParentOk;
    assert DirOk(t, p);
    assert t[p].slots[k].name != DOT;
    CountAtLeast(t, p, c);
    RefsAtLeast(t[p].slots, k, c);
  }

  /** Every live entry of a linked directory, the dots included, names an inode
      that is in use and linked. */
  lemma NamesAreLinked(t: Nodes, d: nat, k: nat)
    requires Ok(t) && LinkedDir(t, d) && k < |t[d].slots| && Live(t[d].slots[k])
    ensures 0 < t[d].slots[k].inum < |t| && t[t[d].slots[k].inum].typ != NONE && t[t[d].slots[k].inum].nlink > 0
  {
    hide Law, Once;
    var c := t[d].slots[k].inum;
    assert DirOk(t, d) && ParentOk(t, d);
    if k >= 2 {
      assert Entry(t, d, k, c);
      Unnamed(t, d, k, c);
    }
  }

  /** Every live entry of any directory in use, removed ones included, names an inode
      of the table. */
  lemma NamesInRange(t: Nodes, d: nat, k: nat)
    requires Ok(t) && 0 < d < |t| && t[d].typ == DIRECTORY && k < |t[d].slots| && Live(t[d].slots[k])
    ensures 0 < t[d].slots[k].inum < |t|
  {
    hide Law, Once;
    if LinkedDir(t, d) { NamesAreLinked(t, d, k); } else { assert RemovedDir(t, d) && Husk(t, d); }
  }

  // ------------------------------------------------------------------
  // No link count exceeds the number of inodes
  // ------------------------------------------------------------------

  /** A directory counts at most twice for an inode: by its ".." and by one entry. */
  lemma GiveBound(t: Nodes, e: nat, i: nat)
    requires Ok(t) && e < |t|
    ensures Give(t[e], i) <= (if e == 0 then 0 else 1) + (if HasChild(t, e, i) then 1 else 0)
  {
    hide Law, Refs, ParentOk, Husks;
    if LinkedDir(t, e) {
      var s := t[e].slots;
      assert DirOk(t, e);
      var s1 := s[1 := FREE];
      RefsSet(s, 1, FREE, i);
      if k :| Entry(t, e, k, i) {
        RefsSet(s1, k, FREE, i);
        var s2 := s1[k := FREE];
        forall j | 0 <= j < |s| ensures !Counts(s2[j], i) { assert Counts(s[j], i) && j >= 2 ==> Entry(t, e, j, i); }
        RefsNone(s2, i);
      } else {
        forall j | 0 <= j < |s| ensures !Counts(s1[j], i) { assert Counts(s[j], i) && j >= 2 ==> Entry(t, e, j, i); }
        RefsNone(s1, i);
      }
    }
  }

  ghost predicate ChildBelow(t: Nodes, n: nat, i: nat) {
    exists e :: 0 <= e < n && HasChild(t, e, i)
  }

  lemma {:induction false} CountBound(t: Nodes, n: nat, i: nat)
    requires Ok(t) && n <= |t|
    ensures Count(t[..n], i) <= (if n == 0 then 0 else n - 1) + (if ChildBelow(t, n, i) then 1 else 0)
  {
    hide Law, DirOk, ParentOk, Husks, Give, Entry, Once;
    if n > 0 {
      CountBound(t, n - 1, i);
      GiveBound(t, n - 1, i);
      assert t[..n][..n - 1] == t[..n - 1];
      if HasChild(t, n - 1, i) {
        var k :| Entry(t, n - 1, k, i);
        NotTwice(t, n - 1, k, i);
      }
    }
  }

  lemma NotTwice(t: Nodes, p: nat, k: int, i: nat)
    requires Ok(t) && Entry(t, p, k, i)
    ensures !ChildBelow(t, p, i)
  {
    hide Law, DirOk, ParentOk, Husks, Entry;
  }

  /** So nlink fits its 32-bit field. */
  lemma LinkBound(t: Nodes, i: nat)
    requires Ok(t) && 0 < i < |t| && t[i].typ != NONE
    ensures t[i].nlink <= |t|
  {
    hide DirOk, ParentOk, Husks, Count, Entry;
    CountBound(t, |t|, i);
    assert t[..|t|] == t;
    if i == ROOT { assert !ChildBelow(t, |t|, i); }
  }

  // ------------------------------------------------------------------
  // Runs
  // ------------------------------------------------------------------

  datatype Op =
    | Make(d: nat, name: Name, x: nat, typ: InodeType)  // create_file
    | Remove(d: nat, k: nat)                            // sys_unlink
    | Forget(x: nat)                                    // inode_put, last reference

  predicate Can(t: Nodes, op: Op) {
    match op
    case Make(d, name, x, typ) => CanCreate(t, d, name, x, typ)
    case Remove(d, k) => CanUnlink(t, d, k)
    case Forget(x) => CanRelease(t, x)
  }

  function Do(t: Nodes, op: Op): Nodes
    requires Can(t, op)
  {
    match op
    case Make(d, name, x, typ) => Create(t, d, name, x, typ)
    case Remove(d, k) => Unlink(t, d, k)
    case Forget(x) => Release(t, x)
  }

  lemma DoKeeps(t: Nodes, op: Op)
    requires Ok(t) && Can(t, op)
    ensures Ok(Do(t, op))
  {
    hide Ok, CanCreate, CanUnlink, CanRelease, Create, Unlink, Release;
    match op
    case Make(d, name, x, typ) => CreateKeeps(t, d, name, x, typ);
    case Remove(d, k) => UnlinkKeeps(t, d, k);
    case Forget(x) => ReleaseKeeps(t, x);
  }

  predicate Legal(t: Nodes, ops: seq<Op>)
    decreases |ops|
  {
    ops == [] || (Can(t, ops[0]) && Legal(Do(t, ops[0]), ops[1..]))
  }

  function After(t: Nodes, ops: seq<Op>): Nodes
    requires Legal(t, ops)
    decreases |ops|
  {
    if ops == [] then t else After(Do(t, ops[0]), ops[1..])
  }

  /** What mkfs starts from: the root directory alone, its own parent. */
  function Fresh(n: nat): (t: Nodes)
    requires n >= 2
    ensures |t| == n
  {
    seq(n, i => if i == ROOT then Node(DIRECTORY, 2, Dots(ROOT, ROOT)) else Node(NONE, 0, []))
  }

  lemma {:induction false} FreshOk(n: nat)
    requires n >= 2
    ensures Ok(Fresh(n))
  {
    hide Count;
    var t := Fresh(n);
    forall e | 0 <= e < n && e != ROOT ensures Give(t[e], ROOT) == 0 { }
    CountOne(t, ROOT, ROOT);
    DotsRefs(ROOT, ROOT, ROOT);
    assert LinkedDir(t, ROOT);
    assert DirOk(t, ROOT);
    assert forall d :: LinkedDir(t, d) ==> d == ROOT;
    assert forall d :: !RemovedDir(t, d);
    assert forall p, k, c :: !Entry(t, p, k, c);
  }

  lemma {:induction false} RunKeeps(t: Nodes, ops: seq<Op>)
    requires Ok(t) && Legal(t, ops)
    ensures Ok(After(t, ops))
    decreases |ops|
  {
    hide Ok, Can, Do;
    if ops != [] {
      DoKeeps(t, ops[0]);
      RunKeeps(Do(t, ops[0]), ops[1..]);
    }
  }

  /** The dots are where dir_isempty expects them. */
  predicate DotsFirst(t: Nodes, d: int) {
    0 <= d < |t| && |t[d].slots| >= 2 && t[d].slots[..2] == Dots(d, Parent(t, d))
  }

  /** nlink is the number of entries other than "." in linked directories (one
      more for the root), "." and ".." come first, ".." leads to the directory
      that holds the entry, and no entry dangles. */
  ghost predicate Sound(t: Nodes) {
    && Law(t)
    && (forall d :: LinkedDir(t, d) ==> DotsFirst(t, d) && ParentOk(t, d))
    && (forall p, k, c :: Entry(t, p, k, c) ==> c < |t| && t[c].typ != NONE && t[c].nlink > 0)
  }

  lemma OkIsSound(t: Nodes)
    requires Ok(t)
    ensures Sound(t)
  {
    hide Law, Parent;
    forall d | LinkedDir(t, d) ensures DotsFirst(t, d) { DotsAre(t, d); }
    forall p, k, c | Entry(t, p, k, c) ensures 0 <= c < |t| && t[c].typ != NONE && t[c].nlink > 0 { Unnamed(t, p, k, c); }
  }

  lemma DotsAre(t: Nodes, d: int)
    requires LinkedDir(t, d) && DirOk(t, d)
    ensures DotsFirst(t, d)
  {
  }

  /** Over every run of create, mkdir, unlink and final put from a new file
      system. */
  lemma LinkCounts(n: nat, ops: seq<Op>)
    requires n >= 2 && Legal(Fresh(n), ops)
    ensures Sound(After(Fresh(n), ops))
  {
    hide Ok, Sound;
    FreshOk(n);
    RunKeeps(Fresh(n), ops);
    OkIsSound(After(Fresh(n), ops));
  }

  // ------------------------------------------------------------------
  // Removed directories
  // ------------------------------------------------------------------

  /** An entry other than "." that would count again for an inode in use, or for
      the new inode `x`, if its directory came back. */
  predicate Recounts(t: Nodes, e: Slot, x: nat) {
    Live(e) && e.name != DOT && 0 < e.inum < |t| && (e.inum == x || t[e.inum].typ != NONE)
  }

  lemma {:induction false} RevivedCount(t: Nodes, d: nat, name: Name, x: nat, typ: InodeType, i: nat)
    requires 0 < d < |t| && t[d].typ == DIRECTORY && t[d].nlink == 0 && 0 < x < |t| && t[x].typ == NONE && typ != NONE && name != DOT
    ensures Count(Create(t, d, name, x, typ), i) == Count(t, i) +
            if typ != DIRECTORY then 0
            else Refs(t[d].slots, i) + (if i == x then 1 else 0) + (if i == d then 1 else 0)
  {
    hide Count, Linked, Refs;
    var e := Slot(x, name);
    var n := Node(typ, 1, if typ == DIRECTORY then Dots(x, d) else []);
    CountSet(t, d, t[d].(slots := Linked(t[d].slots, e)), i);
    CountSet(Entered(t, d, name, x), x, n, i);
    var u := Entered(t, d, name, x)[x := n];
    if typ == DIRECTORY {
      DotsRefs(x, d, i);
      RefsLinked(t[d].slots, e, i);
      CountSet(u, d, u[d].(nlink := u[d].nlink + 1), i);
    }
  }

  lemma {:induction false} RefsZero(s: seq<Slot>, i: nat)
    ensures Refs(s, i) == 0 <==> forall k :: 0 <= k < |s| ==> !Counts(s[k], i)
  {
    hide Refs;
    if forall k :: 0 <= k < |s| ==> !Counts(s[k], i) {
      RefsNone(s, i);
    } else {
      var k :| 0 <= k < |s| && Counts(s[k], i);
      RefsAtLeast(s, k, i);
    }
  }

  /** create_file does not look at the directory's own nlink.  In a directory that
      was removed while somebody was in it, a new file always breaks the law; a new
      directory raises that nlink from 0 to 1 and breaks the law exactly if some
      entry of the removed directory, such as its "..", names an inode in use. */
  lemma {:induction false} CreateInRemovedDirectory(t: Nodes, d: nat, name: Name, x: nat, typ: InodeType)
    requires Ok(t) && 0 < d < |t| && t[d].typ == DIRECTORY && 0 < x < |t| && t[x].typ == NONE && typ != NONE
    requires Resolve(t[d].slots, name) == 0 && name != DOT && name != DOTDOT
    ensures Law(Create(t, d, name, x, typ)) <==>
            t[d].nlink > 0 || (typ == DIRECTORY && forall k :: 0 <= k < |t[d].slots| ==> !Recounts(t, t[d].slots[k], x))
  {
    hide Count, Refs, Linked;
    if t[d].nlink > 0 {
      CreateKeeps(t, d, name, x, typ);
    } else {
      FreeUnnamed(t, x);
      RevivedLaw(t, d, name, x, typ);
      forall i | 0 < i < |t| ensures Refs(t[d].slots, i) == 0 <==> forall k :: 0 <= k < |t[d].slots| ==> !Counts(t[d].slots[k], i) {
        RefsZero(t[d].slots, i);
      }
    }
  }

  /** The law after the call, inode by inode. */
  lemma {:induction false} RevivedLaw(t: Nodes, d: nat, name: Name, x: nat, typ: InodeType)
    requires Law(t) && 0 < d < |t| && t[d].typ == DIRECTORY && t[d].nlink == 0 && 0 < x < |t| && t[x].typ == NONE && typ != NONE
    requires name != DOT && Count(t, x) == 0 && x != ROOT
    ensures Law(Create(t, d, name, x, typ)) <==>
            typ == DIRECTORY && forall i :: 0 < i < |t| && (i == x || t[i].typ != NONE) ==> Refs(t[d].slots, i) == 0
  {
    hide Count, Refs, Linked;
    var u := Create(t, d, name, x, typ);
    forall i | 0 < i < |t| && (i == x || t[i].typ != NONE)
      ensures u[i].typ != NONE
      ensures u[i].nlink == Count(u, i) + (if i == ROOT then 1 else 0) <==>
              if typ == DIRECTORY then Refs(t[d].slots, i) == 0 else i != x
    {
      RevivedCount(t, d, name, x, typ, i);
    }
  }

  /** A directory that holds only its dots. */
  lemma DotsFull(x: nat, d: nat, e: Slot)
    requires x != 0 && d != 0 && e.name != DOT && e.name != DOTDOT
    ensures Linked(Dots(x, d), e) == Dots(x, d) + [e] && Resolve(Dots(x, d), e.name) == 0 && Empty(Dots(x, d))
  {
    var s := Dots(x, d);
    assert Live(s[0]) && Live(s[1]);
    assert FirstFree(s) == 2 && Find(s, e.name) == 2;
  }

  lemma RunCons(t: Nodes, op: Op, rest: seq<Op>)
    requires Can(t, op) && Legal(Do(t, op), rest)
    ensures Legal(t, [op] + rest) && After(t, [op] + rest) == After(Do(t, op), rest)
  {
    hide Can, Do;
    var ops := [op] + rest;
    assert ops[0] == op && ops[1..] == rest;
  }

  lemma RunNone(t: Nodes)
    ensures Legal(t, []) && After(t, []) == t
  {
  }

  /** Such a state is reached: make a directory, remove it while it is in use, and
      make a file or a directory in it. */
  lemma RemovedDirectoryReached(n: nat, name: Name)
    requires n >= 4 && name != DOT && name != DOTDOT
    ensures var ops := [Make(ROOT, name, 2, DIRECTORY), Remove(ROOT, 2)];
            && Legal(Fresh(n), ops)
            && var t := After(Fresh(n), ops);
               && |t| == n && t[2] == Node(DIRECTORY, 0, Dots(2, ROOT)) && Resolve(t[2].slots, name) == 0 && t[3].typ == NONE
               && !Law(Create(t, 2, name, 3, FILE)) && !Law(Create(t, 2, name, 3, DIRECTORY))
  {
    hide Law, Ok, Find, FirstFree;
    var t0 := Fresh(n);
    var ops := [Make(ROOT, name, 2, DIRECTORY), Remove(ROOT, 2)];
    DotsFull(ROOT, ROOT, Slot(2, name));
    DotsFull(2, ROOT, Slot(2, name));
    assert Can(t0, ops[0]);
    var t1 := Do(t0, ops[0]);
    assert t1[ROOT].slots == Dots(ROOT, ROOT) + [Slot(2, name)] && t1[2] == Node(DIRECTORY, 1, Dots(2, ROOT));
    assert Can(t1, ops[1]);
    var t := Do(t1, ops[1]);
    RunNone(t);
    RunCons(t1, ops[1], []);
    RunCons(t0, ops[0], [ops[1]]);
    assert [ops[1]] + [] == [ops[1]] && [ops[0]] + [ops[1]] == ops;
    FreshOk(n);
    RunKeeps(t0, ops);
    assert Recounts(t, t[2].slots[1], 3);
    CreateInRemovedDirectory(t, 2, name, 3, FILE);
    CreateInRemovedDirectory(t, 2, name, 3, DIRECTORY);
  }

  /** Make `a` and `b` in it, remove both while `b` is somebody's working directory:
      `a` is released, and ".." of the working directory names a free inode. */
  lemma RemovedParentReached(n: nat, a: Name, b: Name)
    requires n >= 4 && a !in {DOT, DOTDOT} && b !in {DOT, DOTDOT}
    ensures var ops := [Make(ROOT, a, 2, DIRECTORY), Make(2, b, 3, DIRECTORY), Remove(2, 2), Remove(ROOT, 2), Forget(2)];
            && Legal(Fresh(n), ops)
            && var t := After(Fresh(n), ops);
               |t| == n && RemovedDir(t, 3) && Resolve(t[3].slots, DOTDOT) == 2 && t[2].typ == NONE
  {
    hide Find, FirstFree, Legal, After, Resolve;
    var t0 := Fresh(n);
    var op1, op2, op3, op4, op5 := Make(ROOT, a, 2, DIRECTORY), Make(2, b, 3, DIRECTORY), Remove(2, 2), Remove(ROOT, 2), Forget(2);
    DotsFull(ROOT, ROOT, Slot(2, a));
    DotsFull(2, ROOT, Slot(3, b));
    DotsFull(3, 2, Slot(3, b));
    var t1 := Do(t0, op1);
    assert t1[ROOT].slots == Dots(ROOT, ROOT) + [Slot(2, a)] && t1[2] == Node(DIRECTORY, 1, Dots(2, ROOT)) && t1[3] == Node(NONE, 0, []);
    var t2 := Do(t1, op2);
    assert t2[ROOT] == t1[ROOT] && t2[2] == Node(DIRECTORY, 2, Dots(2, ROOT) + [Slot(3, b)]) && t2[3] == Node(DIRECTORY, 1, Dots(3, 2));
    var t3 := Do(t2, op3);
    assert t3[ROOT] == t1[ROOT] && t3[2] == Node(DIRECTORY, 1, Dots(2, ROOT) + [FREE]) && t3[3] == Node(DIRECTORY, 0, Dots(3, 2));
    var t4 := Do(t3, op4);
    assert t4[2].nlink == 0 && t4[2].typ == DIRECTORY && t4[3] == t3[3];
    var t5 := Do(t4, op5);
    DotsResolve(3, 2);
    RunFive(t0, op1, op2, op3, op4, op5);
  }

  lemma DotsResolve(x: nat, d: nat)
    requires x != 0 && d != 0
    ensures Resolve(Dots(x, d), DOTDOT) == d
  {
    assert Find(Dots(x, d), DOTDOT) == 1;
  }

  lemma RunFive(t: Nodes, a: Op, b: Op, c: Op, d: Op, e: Op)
    requires Can(t, a) && Can(Do(t, a), b) && Can(Do(Do(t, a), b), c) && Can(Do(Do(Do(t, a), b), c), d)
    requires Can(Do(Do(Do(Do(t, a), b), c), d), e)
    ensures Legal(t, [a, b, c, d, e]) && After(t, [a, b, c, d, e]) == Do(Do(Do(Do(Do(t, a), b), c), d), e)
  {
    hide Can, Do, Legal, After;
    var t1 := Do(t, a);
    var t2 := Do(t1, b);
    var t3 := Do(t2, c);
    var t4 := Do(t3, d);
    assert [e] + [] == [e] && [d] + [e] == [d, e] && [c] + [d, e] == [c, d, e];
    assert [b] + [c, d, e] == [b, c, d, e] && [a] + [b, c, d, e] == [a, b, c, d, e];
    RunNone(Do(t4, e));
    RunCons(t4, e, []);
    RunCons(t3, d, [e]);
    RunCons(t2, c, [d, e]);
    RunCons(t1, b, [c, d, e]);
    RunCons(t, a, [b, c, d, e]);
  }

  // ------------------------------------------------------------------
  // mkfs
  // ------------------------------------------------------------------

  /** mkfs's dir_link: it appends, and drops names that do not fit. */
  function Appended(t: Nodes, d: nat, e: Slot): Nodes
    requires d < |t|
  {
    if |e.name| >= NAME_LEN then t else t[d := t[d].(slots := t[d].slots + [e])]
  }

  /** mkfs's create_file: `p` is 0 for the root directory, whose parent is itself. */
  function MkfsCreate(t: Nodes, p: nat, name: Name, x: nat, typ: InodeType): Nodes
    requires p < |t| && x < |t|
  {
    var t1 := t[x := Node(typ, 1, [])];
    var t2 := if p != 0 then Appended(t1, p, Slot(x, name)) else t1;
    if typ != DIRECTORY then t2
    else
      var q := if p == 0 then x else p;
      var t3 := Appended(Appended(t2, x, Slot(x, DOT)), x, Slot(q, DOTDOT));
      t3[q := t3[q].(nlink := t3[q].nlink + 1)]
  }

  /** mkfs builds the root directory this way. */
  lemma MkfsRoot(n: nat)
    requires n >= 2
    ensures MkfsCreate(seq(n, i => Node(NONE, 0, [])), 0, [], ROOT, DIRECTORY) == Fresh(n)
  {
    var t: Nodes := seq(n, i => Node(NONE, 0, []));
    var u := MkfsCreate(t, 0, [], ROOT, DIRECTORY);
    assert [] + [Slot(ROOT, DOT)] + [Slot(ROOT, DOTDOT)] == Dots(ROOT, ROOT);
    assert forall i :: 0 <= i < n ==> u[i] == Fresh(n)[i];
  }

  /** The entries of the directory after either. */
  lemma MkfsSlots(t: Nodes, p: nat, name: Name, x: nat, typ: InodeType)
    requires 0 < p < |t| && 0 < x < |t| && p != x
    ensures MkfsCreate(t, p, name, x, typ)[p].slots == if |name| < NAME_LEN then t[p].slots + [Slot(x, name)] else t[p].slots
    ensures Create(t, p, name, x, typ)[p].slots == Linked(t[p].slots, Slot(x, name))
  {
    hide Linked;
  }

  lemma MkfsSame(t: Nodes, p: nat, name: Name, x: nat, typ: InodeType)
    requires 0 < p < |t| && 0 < x < |t| && p != x && |name| < NAME_LEN
    requires Linked(t[p].slots, Slot(x, name)) == t[p].slots + [Slot(x, name)]
    ensures MkfsCreate(t, p, name, x, typ) == Create(t, p, name, x, typ)
  {
    hide Linked;
    var u, w := MkfsCreate(t, p, name, x, typ), Create(t, p, name, x, typ);
    assert [] + [Slot(x, DOT)] + [Slot(p, DOTDOT)] == Dots(x, p);
    assert forall i :: 0 <= i < |t| ==> u[i] == w[i];
  }

  lemma LinkedAppends(s: seq<Slot>, e: Slot)
    requires Live(e)
    ensures Linked(s, e) == s + [e] <==> FirstFree(s) == |s|
    ensures Linked(s, e) != s
  {
    hide FirstFree;
    var f := FirstFree(s);
    if f < |s| { assert Linked(s, e)[f] == e && !Live(s[f]); }
  }

  lemma StillFull(s: seq<Slot>, e: Slot)
    requires Live(e) && FirstFree(s) == |s|
    ensures FirstFree(Linked(s, e)) == |s| + 1
  {
    hide FirstFree;
    var r := s + [e];
    assert Linked(s, e) == r && forall j :: 0 <= j < |r| ==> Live(r[j]);
  }

  /** And every other inode by the step of create_file exactly if the name fits and the
      directory has no free entry; such a directory it leaves without one. */
  lemma MkfsStep(t: Nodes, p: nat, name: Name, x: nat, typ: InodeType)
    requires 0 < p < |t| && 0 < x < |t| && p != x
    ensures MkfsCreate(t, p, name, x, typ) == Create(t, p, name, x, typ) <==>
            |name| < NAME_LEN && FirstFree(t[p].slots) == |t[p].slots|
    ensures FirstFree(t[p].slots) == |t[p].slots| ==> FirstFree(Create(t, p, name, x, typ)[p].slots) == |t[p].slots| + 1
  {
    hide FirstFree, Linked, MkfsCreate, Create;
    var s, e := t[p].slots, Slot(x, name);
    MkfsSlots(t, p, name, x, typ);
    LinkedAppends(s, e);
    if |name| < NAME_LEN && FirstFree(s) == |s| { MkfsSame(t, p, name, x, typ); }
    if FirstFree(s) == |s| { StillFull(s, e); }
  }
}
