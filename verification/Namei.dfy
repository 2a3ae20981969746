/** Path lookup: path_lookup0 of fs/pathname.c over the directories of a volume
    whose tree is well-formed. */
module Namei {
  import opened Blocks
  import opened Volume
  import opened FileSystem
  import opened InodeLife
  import opened Directory
  import opened DirectoryCode
  import Tree
  import opened Paths

  // ------------------------------------------------------------------
  // The tree of a volume
  // ------------------------------------------------------------------

  ghost function NodeOf(v: Vol, g: Geo, i: int): Tree.Node
    requires Shape(v, g) && Inum(g, i)
  {
    var d := v.tab[i];
    Tree.Node(d.typ, d.nlink,
              if d.typ == DIRECTORY && d.size <= MAX_BLOCKS * BLOCK_SIZE then Slots(Contents(v, g, i)) else [])
  }

  ghost function Abs(v: Vol, g: Geo): (t: Tree.Nodes)
    requires Shape(v, g)
    ensures |t| == g.ninodes && forall i :: 0 <= i < |t| ==> t[i] == NodeOf(v, g, i)
  {
    seq(g.ninodes, i requires 0 <= i < g.ninodes => NodeOf(v, g, i))
  }

  ghost predicate DirSizes(v: Vol, g: Geo) {
    forall i :: InUse(v, g, i) && v.tab[i].typ == DIRECTORY ==> v.tab[i].size % DIRENT == 0 && v.tab[i].size <= MAX_BLOCKS * BLOCK_SIZE
  }

  /** A free inode is unlinked and empty; device numbers are 32-bit. */
  predicate FieldOk(d: Dinode) {
    && (d.typ == NONE ==> d.nlink == 0 && d.size == 0)
    && -0x8000_0000 <= d.major < 0x8000_0000 && -0x8000_0000 <= d.minor < 0x8000_0000
  }

  predicate FieldsOk(v: Vol) {
    forall i :: 0 <= i < |v.tab| ==> FieldOk(v.tab[i])
  }

  ghost predicate World(v: Vol, g: Geo) {
    Shape(v, g) && DirSizes(v, g) && FieldsOk(v) && Tree.Ok(Abs(v, g))
  }

  predicate Alive(v: Vol, g: Geo, i: int) {
    InUse(v, g, i) && v.tab[i].nlink >= 1 && i != 0
  }

  /** A linked directory is one that dir_lookup can search. */
  lemma WorldDir(v: Vol, g: Geo, d: int)
    requires World(v, g) && Tree.LinkedDir(Abs(v, g), d)
    ensures IsDir(v, g, d) && SlotsOf(v, g, d) == Abs(v, g)[d].slots && NamesOk(v, g, SlotsOf(v, g, d))
    ensures forall k :: 0 <= k < |SlotsOf(v, g, d)| && Live(SlotsOf(v, g, d)[k]) ==> Alive(v, g, SlotsOf(v, g, d)[k].inum)
  {
    hide Contents, Slots, Tree.Ok;
    var t := Abs(v, g);
    assert t[d] == NodeOf(v, g, d);
    var s := SlotsOf(v, g, d);
    forall k | 0 <= k < |s| && Live(s[k]) ensures Alive(v, g, s[k].inum) {
      Tree.NamesAreLinked(t, d, k);
      assert t[s[k].inum] == NodeOf(v, g, s[k].inum);
    }
  }

  /** Any directory in use can be searched, a removed one too. */
  lemma AnyDir(v: Vol, g: Geo, d: int)
    requires World(v, g) && 0 < d && InUse(v, g, d) && v.tab[d].typ == DIRECTORY
    ensures IsDir(v, g, d) && SlotsOf(v, g, d) == Abs(v, g)[d].slots && InTable(g, SlotsOf(v, g, d))
  {
    hide Contents, Slots, Tree.Ok;
    var t := Abs(v, g);
    assert t[d] == NodeOf(v, g, d);
    var s := SlotsOf(v, g, d);
    forall k | 0 <= k < |s| && Live(s[k]) ensures s[k].inum < g.ninodes { Tree.NamesInRange(t, d, k); }
  }

  // ------------------------------------------------------------------
  // Lookup as a fold
  // ------------------------------------------------------------------

  /** Following the components from `d`; 0 is NULL. */
  function Walk(t: Tree.Nodes, d: nat, cs: seq<Name>): nat
    decreases |cs|
  {
    if cs == [] then d
    else if d >= |t| || t[d].typ != DIRECTORY then 0
    else
      var c := Resolve(t[d].slots, cs[0]);
      if c == 0 then 0 else Walk(t, c, cs[1..])
  }

  /** The directory that holds, or would hold, the last component. */
  function WalkParent(t: Tree.Nodes, d: nat, cs: seq<Name>): nat
    decreases |cs|
  {
    if cs == [] || d >= |t| || t[d].typ != DIRECTORY then 0
    else if |cs| == 1 then d
    else
      var c := Resolve(t[d].slots, cs[0]);
      if c == 0 then 0 else WalkParent(t, c, cs[1..])
  }

  /** The parent is what the path without its last component leads to, if that is
      a directory. */
  lemma {:induction false} ParentIsWalk(t: Tree.Nodes, d: nat, cs: seq<Name>)
    requires cs != []
    ensures var p := Walk(t, d, cs[..|cs| - 1]);
            WalkParent(t, d, cs) == if 0 < p < |t| && t[p].typ == DIRECTORY then p else 0
    decreases |cs|
  {
    var front := cs[..|cs| - 1];
    if |cs| > 1 && d < |t| && t[d].typ == DIRECTORY {
      var c := Resolve(t[d].slots, cs[0]);
      if c != 0 {
        ParentIsWalk(t, c, cs[1..]);
        assert front[1..] == cs[1..][..|cs| - 2];
      }
    }
  }

  function Start(path: Path, cwd: nat): nat {
    if Absolute(path) then Tree.ROOT else cwd
  }

  /** path_lookup_parent agrees with path_lookup of what path_parent calls the
      parent, whenever that is a directory. */
  lemma ParentAgrees(t: Tree.Nodes, cwd: nat, path: Path, parent: Path, name: Name)
    requires Comps(path) == Comps(parent) + [name] && (Absolute(parent) <==> Absolute(path))
    ensures var p := Walk(t, Start(parent, cwd), Comps(parent));
            WalkParent(t, Start(path, cwd), Comps(path)) == if 0 < p < |t| && t[p].typ == DIRECTORY then p else 0
  {
    hide Comps, Walk, WalkParent;
    ParentIsWalk(t, Start(path, cwd), Comps(path));
    assert Comps(path)[..|Comps(path)| - 1] == Comps(parent);
  }

  /** And the whole path leads where the last name leads from the parent. */
  lemma {:induction false} WalkLast(t: Tree.Nodes, d: nat, cs: seq<Name>)
    requires cs != [] && d > 0
    ensures var p := WalkParent(t, d, cs);
            Walk(t, d, cs) == if 0 < p < |t| then Resolve(t[p].slots, cs[|cs| - 1]) else 0
    decreases |cs|
  {
    if |cs| > 1 && d < |t| && t[d].typ == DIRECTORY {
      var c := Resolve(t[d].slots, cs[0]);
      if c != 0 { WalkLast(t, c, cs[1..]); }
    } else if |cs| == 1 {
      assert cs[1..] == [];
    }
  }

  // ------------------------------------------------------------------
  // Leaving a removed directory
  // ------------------------------------------------------------------

  /** The walk comes to a free inode with components left; inode_lock's assertion
      fails on it. */
  predicate Strays(t: Tree.Nodes, d: nat, cs: seq<Name>)
    decreases |cs|
  {
    cs != [] && d < |t| &&
    (t[d].typ == NONE || (t[d].typ == DIRECTORY && var c := Resolve(t[d].slots, cs[0]); c != 0 && Strays(t, c, cs[1..])))
  }

  /** After `n` components the walk is in a removed directory, whose next component
      names a free inode, and that is not the last one. */
  predicate LeavesRemoved(t: Tree.Nodes, d: nat, cs: seq<Name>, n: nat) {
    n + 1 < |cs| &&
    var at := Walk(t, d, cs[..n]);
    Tree.RemovedDir(t, at) && var c := Resolve(t[at].slots, cs[n]); 0 < c < |t| && t[c].typ == NONE
  }

  lemma LeavesLater(t: Tree.Nodes, d: nat, cs: seq<Name>, n: nat)
    requires cs != [] && d < |t| && t[d].typ == DIRECTORY && Resolve(t[d].slots, cs[0]) != 0 && n + 1 < |cs|
    ensures LeavesRemoved(t, d, cs, n + 1) <==> LeavesRemoved(t, Resolve(t[d].slots, cs[0]), cs[1..], n)
  {
    hide Resolve;
    assert cs[..n + 1][1..] == cs[1..][..n];
  }

  lemma ResolveInTable(t: Tree.Nodes, d: nat, n: Name)
    requires Tree.Ok(t) && 0 < d < |t| && t[d].typ == DIRECTORY
    ensures Resolve(t[d].slots, n) < |t|
    ensures t[d].nlink > 0 && Resolve(t[d].slots, n) != 0 ==>
              var c := Resolve(t[d].slots, n); t[c].typ != NONE && t[c].nlink > 0
  {
    hide Tree.Ok;
    var k := Find(t[d].slots, n);
    if k < |t[d].slots| {
      Tree.NamesInRange(t, d, k);
      if t[d].nlink > 0 { Tree.NamesAreLinked(t, d, k); }
    }
  }

  /** A walk goes astray exactly if it leaves a removed directory through an entry
      that names a free inode. */
  lemma {:induction false} StraysExactly(t: Tree.Nodes, d: nat, cs: seq<Name>)
    requires Tree.Ok(t) && 0 < d < |t| && t[d].typ != NONE
    ensures Strays(t, d, cs) <==> exists n: nat :: LeavesRemoved(t, d, cs, n)
    decreases |cs|
  {
    hide Tree.Ok, Resolve;
    if cs != [] && t[d].typ == DIRECTORY && Resolve(t[d].slots, cs[0]) != 0 {
      StraysStep(t, d, cs);
    } else {
      NeverLeaves(t, d, cs);
    }
  }

  lemma NeverLeaves(t: Tree.Nodes, d: nat, cs: seq<Name>)
    requires 0 < d < |t| && t[d].typ != NONE
    requires cs == [] || t[d].typ != DIRECTORY || Resolve(t[d].slots, cs[0]) == 0
    ensures !Strays(t, d, cs) && forall n: nat :: !LeavesRemoved(t, d, cs, n)
  {
    hide Resolve;
    forall n: nat ensures !LeavesRemoved(t, d, cs, n) {
      if 0 < n < |cs| { assert cs[..n][0] == cs[0]; }
    }
  }

  lemma {:induction false} StraysStep(t: Tree.Nodes, d: nat, cs: seq<Name>)
    requires Tree.Ok(t) && 0 < d < |t| && t[d].typ == DIRECTORY && cs != [] && Resolve(t[d].slots, cs[0]) != 0
    ensures Strays(t, d, cs) <==> exists n: nat :: LeavesRemoved(t, d, cs, n)
    decreases |cs|, 0
  {
    hide Tree.Ok, Resolve;
    var c := Resolve(t[d].slots, cs[0]);
    ResolveInTable(t, d, cs[0]);
    assert Walk(t, d, cs[..0]) == d;
    if t[c].typ == NONE {
      assert LeavesRemoved(t, d, cs, 0) <==> |cs| > 1;
      if |cs| == 1 { assert forall n: nat :: !LeavesRemoved(t, d, cs, n); }
    } else {
      StraysExactly(t, c, cs[1..]);
      if n: nat :| LeavesRemoved(t, c, cs[1..], n) { LeavesLater(t, d, cs, n); }
      if n: nat :| LeavesRemoved(t, d, cs, n) {
        if n > 0 { LeavesLater(t, d, cs, n - 1); }
      }
    }
  }

  /** From an inode that is linked no walk goes astray. */
  lemma {:induction false} LinkedNeverStrays(t: Tree.Nodes, d: nat, cs: seq<Name>)
    requires Tree.Ok(t) && 0 < d < |t| && t[d].typ != NONE && t[d].nlink > 0
    ensures !Strays(t, d, cs)
    decreases |cs|
  {
    hide Tree.Ok, Resolve;
    if cs != [] && t[d].typ == DIRECTORY && Resolve(t[d].slots, cs[0]) != 0 {
      ResolveInTable(t, d, cs[0]);
      LinkedNeverStrays(t, Resolve(t[d].slots, cs[0]), cs[1..]);
    }
  }

  /** Make /a and /a/b, enter /a/b, remove /a/b and then /a: whatever follows ".." in
      a path from there, its lookup goes astray. */
  lemma StrayReached(n: nat, a: Name, b: Name, rest: seq<Name>)
    requires n >= 4 && a !in {DOT, DOTDOT} && b !in {DOT, DOTDOT} && rest != []
    ensures exists ops: seq<Tree.Op> :: Tree.Legal(Tree.Fresh(n), ops)
              && Tree.RemovedDir(Tree.After(Tree.Fresh(n), ops), 3) && Strays(Tree.After(Tree.Fresh(n), ops), 3, [DOTDOT] + rest)
  {
    hide Resolve, Tree.Legal, Tree.After;
    Tree.RemovedParentReached(n, a, b);
    var ops := [Tree.Make(Tree.ROOT, a, 2, DIRECTORY), Tree.Make(2, b, 3, DIRECTORY), Tree.Remove(2, 2), Tree.Remove(Tree.ROOT, 2), Tree.Forget(2)];
    var t := Tree.After(Tree.Fresh(n), ops);
    assert ([DOTDOT] + rest)[1..] == rest;
    assert Strays(t, 2, rest);
  }

  // ------------------------------------------------------------------
  // path_lookup0
  // ------------------------------------------------------------------

  predicate ShortNames(cs: seq<Name>) {
    forall i :: 0 <= i < |cs| ==> |cs[i]| < NAME_LEN
  }

  /** The reference counts with one more reference to `i`. */
  function Plus(ref: seq<nat>, i: nat): seq<nat> {
    if 0 < i < |ref| then ref[i := ref[i] + 1] else ref
  }

  /** An inode in use but without links is held by somebody. */
  predicate Referenced(v: Vol, g: Geo, ref: seq<nat>) {
    |ref| == g.ninodes == |v.tab| && forall i :: 0 < i < |ref| && v.tab[i].typ != NONE && v.tab[i].nlink == 0 ==> ref[i] >= 1
  }

  /** A walk may stand at `i`: it is linked, or nothing unlinked is without holder. */
  predicate Standing(v: Vol, g: Geo, ref: seq<nat>, i: int) {
    0 < i && Inum(g, i) && (Alive(v, g, i) || Referenced(v, g, ref))
  }

  /** Where the path may start: the working directory is in use, removed or not. */
  predicate Startable(v: Vol, g: Geo, ref: seq<nat>, path: Path, cwd: nat) {
    Absolute(path) || (InUse(v, g, cwd) && Standing(v, g, ref, cwd))
  }

  /** inode_put where the inode is linked or held by others only drops the reference. */
  method PutHeld(fs: Fs, i: nat, ghost ref0: seq<nat>)
    requires fs.Valid() && InUse(fs.vol, fs.g, i) && Standing(fs.vol, fs.g, ref0, i)
    requires |fs.ref| == fs.g.ninodes == |ref0| && fs.ref == Plus(ref0, i)
    modifies fs
    ensures fs.Valid() && fs.Now() == old(fs.Now()) && fs.ref == ref0
  {
    hide Owned, Settled, FreeBits, ReleaseSet;
    var loaded: bool := *;
    InodePut(fs, i, loaded);
  }

  /** inode_put of a linked inode. */
  method PutLinked(fs: Fs, i: nat, ghost ref0: seq<nat>)
    requires fs.Valid() && Alive(fs.vol, fs.g, i) && |fs.ref| == fs.g.ninodes && fs.ref == Plus(ref0, i)
    modifies fs
    ensures fs.Valid() && fs.Now() == old(fs.Now()) && fs.ref == ref0
  {
    hide Owned, Settled, FreeBits;
    PutHeld(fs, i, ref0);
  }

  /** The answer of path_lookup0. */
  function Answer(t: Tree.Nodes, d: nat, cs: seq<Name>, nameiparent: bool): nat {
    if nameiparent then WalkParent(t, d, cs) else Walk(t, d, cs)
  }

  /** The state of the walk: `path[p..]` is still to be followed from `at`. */
  ghost predicate Walking(t: Tree.Nodes, start: nat, path: Path, np: bool, at: nat, p: nat) {
    && p <= |path|
    && Answer(t, start, Comps(path), np) == Answer(t, at, Comps(path[p..]), np)
    && Strays(t, start, Comps(path)) == Strays(t, at, Comps(path[p..]))
    && (Comps(path[p..]) != [] ==> Comps(path) != [] && Comps(path[p..])[|Comps(path[p..])| - 1] == Comps(path)[|Comps(path)| - 1])
    && ShortNames(Comps(path[p..]))
  }

  lemma WalkOn(t: Tree.Nodes, start: nat, path: Path, np: bool, at: nat, p: nat, w: Name, q: nat)
    requires Walking(t, start, path, np, at, p) && q <= |path| && Comps(path[p..]) == [w] + Comps(path[q..]) && at < |t|
    ensures |w| < NAME_LEN && Comps(path) != []
    ensures t[at].typ == NONE ==> Strays(t, start, Comps(path))
    ensures t[at].typ != NONE && t[at].typ != DIRECTORY ==> Answer(t, start, Comps(path), np) == 0 && !Strays(t, start, Comps(path))
    ensures t[at].typ == DIRECTORY ==>
              var c := Resolve(t[at].slots, w);
              if Comps(path[q..]) == [] && np then
                Answer(t, start, Comps(path), np) == at && w == Comps(path)[|Comps(path)| - 1] && !Strays(t, start, Comps(path))
              else if c == 0 then Answer(t, start, Comps(path), np) == 0 && !Strays(t, start, Comps(path))
              else Walking(t, start, path, np, c, q)
  {
    hide Comps, Resolve;
    var cs, ds := Comps(path[p..]), Comps(path[q..]);
    assert cs[1..] == ds && cs[0] == w;
    if ds != [] { assert ds[|ds| - 1] == cs[|cs| - 1]; } else { assert !Strays(t, Resolve(t[at].slots, w), ds); }
    forall i | 0 <= i < |ds| ensures |ds[i]| < NAME_LEN { assert ds[i] == cs[i + 1]; }
  }

  lemma WalkStarts(t: Tree.Nodes, path: Path, np: bool, cwd: nat)
    requires ShortNames(Comps(path))
    ensures !Absolute(path) ==> Walking(t, Start(path, cwd), path, np, cwd, 0)
    ensures Absolute(path) ==> Walking(t, Start(path, cwd), path, np, Tree.ROOT, 1)
  {
    hide Comps, Answer, Strays;
    assert path[0..] == path;
    if Absolute(path) { SkipSlashes(path, 1); }
  }

  lemma WalkEnds(t: Tree.Nodes, start: nat, path: Path, np: bool, at: nat, p: nat)
    requires Walking(t, start, path, np, at, p) && Comps(path[p..]) == []
    ensures Answer(t, start, Comps(path), np) == (if np then 0 else at) && !Strays(t, start, Comps(path))
  {
  }

  lemma AliveDir(v: Vol, g: Geo, i: nat)
    requires World(v, g) && Alive(v, g, i)
    ensures i < |Abs(v, g)| && Abs(v, g)[i].typ == v.tab[i].typ
    ensures v.tab[i].typ == DIRECTORY ==> Tree.LinkedDir(Abs(v, g), i)
  {
    hide Tree.Ok, Contents;
    assert Abs(v, g)[i] == NodeOf(v, g, i);
  }

  lemma NodeType(v: Vol, g: Geo, i: nat)
    requires Shape(v, g) && Inum(g, i)
    ensures i < |v.tab| && i < |Abs(v, g)| && Abs(v, g)[i].typ == v.tab[i].typ && Abs(v, g)[i].nlink == v.tab[i].nlink
  {
    hide Contents;
    assert Abs(v, g)[i] == NodeOf(v, g, i);
  }

  /** Whatever a directory in use names is a place to stand. */
  lemma StandNext(v: Vol, g: Geo, ref: seq<nat>, d: nat, n: Name)
    requires World(v, g) && InUse(v, g, d) && Standing(v, g, ref, d) && v.tab[d].typ == DIRECTORY && d < |Abs(v, g)|
    ensures var c := Resolve(Abs(v, g)[d].slots, n);
            c != 0 ==> Standing(v, g, ref, c) && (Alive(v, g, d) ==> Alive(v, g, c))
  {
    hide Tree.Ok, Contents, Resolve;
    NodeType(v, g, d);
    ResolveInTable(Abs(v, g), d, n);
    NodeType(v, g, Resolve(Abs(v, g)[d].slots, n));
  }

  /** One component of the walk: the answer, or the next inode with the reference
      moved to it. */
  method Step(fs: Fs, at: nat, w: Name, ghost ref0: seq<nat>) returns (c: nat)
    requires fs.Valid() && World(fs.vol, fs.g) && InUse(fs.vol, fs.g, at) && fs.vol.tab[at].typ == DIRECTORY
    requires Standing(fs.vol, fs.g, ref0, at)
    requires |fs.ref| == fs.g.ninodes == |ref0| && fs.ref == Plus(ref0, at) && |w| < NAME_LEN
    modifies fs
    ensures fs.Valid() && fs.Now() == old(fs.Now()) && fs.ref == Plus(ref0, c)
    ensures World(fs.vol, fs.g) && at < |Abs(fs.vol, fs.g)| && c == Resolve(Abs(fs.vol, fs.g)[at].slots, w)
    ensures c != 0 ==> Standing(fs.vol, fs.g, ref0, c) && (Alive(fs.vol, fs.g, at) ==> Alive(fs.vol, fs.g, c))
  {
    hide Owned, Settled, Contents, Find, Tree.Ok, IsDir, Abs, DirSizes, FieldsOk, InTable, Resolve;
    AnyDir(fs.vol, fs.g, at);
    NodeType(fs.vol, fs.g, at);
    StandNext(fs.vol, fs.g, ref0, at, w);
    var k: nat;
    k, c := DirLookup(fs, at, w);
    PlusSwaps(ref0, at, c);
    assert fs.ref == Plus(Plus(ref0, c), at);
    PlusHeld(fs.vol, fs.g, ref0, c, at);
    PutHeld(fs, at, Plus(ref0, c));
  }

  lemma PlusSwaps(ref: seq<nat>, a: nat, b: nat)
    ensures Plus(Plus(ref, a), b) == Plus(Plus(ref, b), a) && |Plus(ref, a)| == |ref|
  {
  }

  lemma PlusHeld(v: Vol, g: Geo, ref: seq<nat>, c: nat, i: nat)
    requires Standing(v, g, ref, i)
    ensures Standing(v, g, Plus(ref, c), i)
  {
  }

  lemma RootAlive(v: Vol, g: Geo)
    requires World(v, g)
    ensures Alive(v, g, Tree.ROOT)
  {
    hide Contents;
    assert Tree.LinkedDir(Abs(v, g), Tree.ROOT) && Abs(v, g)[Tree.ROOT] == NodeOf(v, g, Tree.ROOT);
  }

  /** The loop over the slashes behind a component. */
  method Skip(path: Path, from: nat) returns (q: nat)
    requires from <= |path|
    ensures from <= q <= |path| && Comps(path[q..]) == Comps(path[from..]) && (q < |path| ==> path[q] != SLASH)
  {
    hide Comps;
    q := from;
    while q < |path| && path[q] == SLASH
      invariant from <= q <= |path| && AllSlashes(path, from, q)
    {
      q := q + 1;
    }
    SkipSlashes(path[from..], q - from);
    assert path[from..][q - from..] == path[q..];
  }

  lemma EndOfPath(path: Path, q: nat)
    requires q <= |path| && (q < |path| ==> path[q] != SLASH)
    ensures q == |path| <==> Comps(path[q..]) == []
  {
    if q < |path| { assert path[q..][0] == path[q]; } else { assert path[q..] == []; }
  }

  /** path_lookup0 from any working directory in use: it is the fold, holding exactly
      one more reference if it finds an inode and none if not, unless the walk goes
      astray; then inode_lock's assertion fails and `ok` is false. */
  method PathLookup0(fs: Fs, cwd: nat, path: Path, nameiparent: bool) returns (ip: nat, name: Name, ok: bool)
    requires fs.Valid() && World(fs.vol, fs.g) && |fs.ref| == fs.g.ninodes
    requires Startable(fs.vol, fs.g, fs.ref, path, cwd) && ShortNames(Comps(path))
    modifies fs
    ensures fs.Valid() && fs.Now() == old(fs.Now()) && World(fs.vol, fs.g)
    ensures ok <==> !Strays(Abs(fs.vol, fs.g), Start(path, cwd), Comps(path))
    ensures ok ==> ip == Answer(Abs(fs.vol, fs.g), Start(path, cwd), Comps(path), nameiparent)
    ensures ok ==> fs.ref == Plus(old(fs.ref), ip)
    ensures ok && nameiparent && ip != 0 ==> Comps(path) != [] && name == Comps(path)[|Comps(path)| - 1]
    ensures ok && ip != 0 ==> Standing(fs.vol, fs.g, old(fs.ref), ip) && (nameiparent ==> InUse(fs.vol, fs.g, ip))
    ensures ok && ip != 0 && Alive(fs.vol, fs.g, Start(path, cwd)) ==> Alive(fs.vol, fs.g, ip)
  {
    hide Owned, Settled, Contents, Tree.Ok, Comps, Answer, Abs, Resolve, Strays, Standing, DirSizes, FieldsOk, Walking, ShortNames;
    ghost var t, start, ref0 := Abs(fs.vol, fs.g), Start(path, cwd), fs.ref;
    var at := cwd;
    var p := 0;
    RootAlive(fs.vol, fs.g);
    AliveStands(fs.vol, fs.g, fs.ref, Tree.ROOT);
    WalkStarts(t, path, nameiparent, cwd);
    if |path| > 0 && path[0] == SLASH {
      at, p := Tree.ROOT, 1;
    }
    StandsInTable(fs.vol, fs.g, ref0, at);
    fs.ref := fs.ref[at := fs.ref[at] + 1];
    name, ok := [], true;
    while true
      invariant fs.Valid() && fs.Now() == old(fs.Now()) && |fs.ref| == |ref0| && fs.ref == Plus(ref0, at)
      invariant Standing(fs.vol, fs.g, ref0, at) && (Alive(fs.vol, fs.g, start) ==> Alive(fs.vol, fs.g, at))
      invariant p <= |path| && Walking(t, start, path, nameiparent, at, p) && ok
      invariant Comps(path[p..]) == [] && nameiparent ==> InUse(fs.vol, fs.g, at)
      decreases |path| - p
    {
      var more, q, w, _ := SkipElem(path, p);
      if !more { break; }
      name := w;
      StandsInTable(fs.vol, fs.g, ref0, at);
      NodeType(fs.vol, fs.g, at);
      WalkOn(t, start, path, nameiparent, at, p, w, q);
      if fs.vol.tab[at].typ == NONE {
        return 0, name, false;
      }
      if fs.vol.tab[at].typ != DIRECTORY {
        PutHeld(fs, at, ref0);
        return 0, name, true;
      }
      q := Skip(path, q);
      WalkOn(t, start, path, nameiparent, at, p, w, q);
      EndOfPath(path, q);
      if q == |path| && nameiparent {
        return at, name, true;
      }
      var c := Step(fs, at, w, ref0);
      if c == 0 {
        return 0, name, true;
      }
      at, p := c, q;
    }
    WalkEnds(t, start, path, nameiparent, at, p);
    if nameiparent {
      PutHeld(fs, at, ref0);
      return 0, name, true;
    }
    return at, name, true;
  }

  lemma AliveStands(v: Vol, g: Geo, ref: seq<nat>, i: int)
    requires Alive(v, g, i)
    ensures Standing(v, g, ref, i)
  {
  }

  lemma StandsInTable(v: Vol, g: Geo, ref: seq<nat>, i: int)
    requires Standing(v, g, ref, i)
    ensures 0 < i && Inum(g, i)
  {
  }
}
