/** File system calls as log operations: what lies between log_begin_op and
    log_end_op takes a healthy volume to a healthy one, every block in which the two
    differ has been passed to log_write, and it is said how many these are. */
module FsOps {
  import opened Blocks
  import opened Volume
  import opened FileSystem
  import opened InodeLife
  import opened Directory
  import opened DirectoryCode
  import Tree
  import opened Paths
  import opened Namei
  import opened FsCalls
  import P = LogProtocol

  /** Ownership, no holes, and a well-formed directory tree. */
  ghost predicate Healthy(v: Vol, g: Geo) {
    World(v, g) && exists k :: Owned(v, g, k) && Settled(v, g, k)
  }

  /** One log operation. */
  ghost predicate Step(g: Geo, v: Vol, w: Vol, dirty: set<nat>) {
    Healthy(v, g) && Healthy(w, g) && Follows(g, ImageOf(v, {}), ImageOf(w, dirty))
  }

  lemma ValidStep(g: Geo, v: Vol, k: Book, w: Vol, l: Book, dirty: set<nat>)
    requires World(v, g) && Owned(v, g, k) && Settled(v, g, k) && World(w, g) && Owned(w, g, l) && Settled(w, g, l)
    requires Follows(g, ImageOf(v, {}), ImageOf(w, dirty))
    ensures Step(g, v, w, dirty)
  {
  }

  lemma CreatedAlive(v: Vol, w: Vol, g: Geo, d: nat, name: Name, x: nat, typ: InodeType)
    requires Created(v, w, g, d, name, x, typ)
    ensures Alive(w, g, x)
  {
    hide Contents, Slots, Tree.Ok, Linked;
    assert Abs(v, g)[d] == NodeOf(v, g, d) && Abs(v, g)[x] == NodeOf(v, g, x) && Abs(w, g)[x] == NodeOf(w, g, x);
  }

  /** A directory is never found but always made. */
  lemma FoundIsNew(v: Vol, w: Vol, g: Geo, start: nat, cs: seq<Name>, c: Call)
    requires World(v, g) && World(w, g) && CreateAnswer(v, w, g, start, cs, DIRECTORY, c) && c.Found?
    ensures exists d: nat, name: Name :: Created(v, w, g, d, name, c.inum, DIRECTORY)
  {
    hide Created, World, WalkParent, Resolve, FirstFree;
  }

  lemma StillUnused(v: Vol, w: Vol, g: Geo, ref: seq<nat>, d: nat, name: Name, x: nat, typ: InodeType)
    requires FreeUnused(v, g, ref) && Created(v, w, g, d, name, x, typ)
    ensures FreeUnused(w, g, ref) && (Referenced(v, g, ref) ==> Referenced(w, g, ref))
  {
    hide Tree.Ok, Contents;
    CreatedTypes(v, w, g, d, name, x, typ);
  }

  lemma StartsAbove(v: Vol, g: Geo, ref: seq<nat>, path: Path, cwd: nat)
    requires Startable(v, g, ref, path, cwd)
    ensures Start(path, cwd) > 0
  {
  }

  /** The refusals of create_file: no such directory, an invalid name, something else of
      that name, or no room for the entry. */
  ghost predicate Refused(t: Tree.Nodes, start: nat, cs: seq<Name>, typ: InodeType) {
    var d := WalkParent(t, start, cs);
    d == 0 || d >= |t| || cs == [] || !ValidName(cs[|cs| - 1]) ||
    var x := Resolve(t[d].slots, cs[|cs| - 1]);
    if x != 0 then !(x < |t| && t[x].typ == typ == FILE) else Full(t[d].slots)
  }

  /** The tree after sys_mkdir of a path: -1 and no change exactly for a refusal, otherwise
      the path leads to a new directory. */
  ghost predicate MkdirDone(t: Tree.Nodes, u: Tree.Nodes, start: nat, cs: seq<Name>, r: int) {
    && r == (if Refused(t, start, cs, DIRECTORY) then -1 else 0)
    && (r != 0 ==> u == t)
    && (r == 0 ==> exists x :: PathMade(t, u, start, cs, DIRECTORY, x))
  }

  /** And after sys_open with O_CREAT: NULL and no change exactly for a refusal, otherwise
      the path leads to the plain file that is answered. */
  ghost predicate OpenDone(t: Tree.Nodes, u: Tree.Nodes, start: nat, cs: seq<Name>, c: Call) {
    && (c.Null? <==> Refused(t, start, cs, FILE))
    && (c.Null? ==> u == t)
    && (c.Found? ==> PathMade(t, u, start, cs, FILE, c.inum))
  }

  lemma NullIsRefusal(v: Vol, w: Vol, g: Geo, start: nat, cs: seq<Name>, typ: InodeType, c: Call)
    requires World(v, g) && World(w, g) && CreateAnswer(v, w, g, start, cs, typ, c) && !c.Halted?
    ensures c.Null? <==> Refused(Abs(v, g), start, cs, typ)
  {
    hide World, WalkParent, Resolve, FirstFree, Created, ValidName;
  }

  /** sys_mkdir; a panic or a failed assertion ends the run. */
  method SysMkdir(fs: Fs, cwd: nat, path: Path, stack: seq<byte>) returns (r: int, halted: bool)
    requires fs.Valid() && World(fs.vol, fs.g) && FreeUnused(fs.vol, fs.g, fs.ref) && fs.g.ninodes <= 0x1_0000_0000
    requires Startable(fs.vol, fs.g, fs.ref, path, cwd) && ParentLinked(fs.vol, fs.g, cwd, path)
    requires ShortNames(Comps(path)) && |stack| == DIRENT
    modifies fs
    ensures halted <==> CreateHalts(old(fs.vol), fs.g, Start(path, cwd), Comps(path), DIRECTORY)
    ensures !halted ==> fs.Valid() && Step(fs.g, old(fs.vol), fs.vol, fs.dirty) && |fs.dirty| <= 9
    ensures !halted ==> World(fs.vol, fs.g) && FreeUnused(fs.vol, fs.g, fs.ref) && fs.ref == old(fs.ref)
    ensures !halted && Referenced(old(fs.vol), fs.g, old(fs.ref)) ==> Referenced(fs.vol, fs.g, fs.ref)
    ensures !halted ==> FilesKept(old(fs.vol), fs.vol, fs.g, {})
    ensures !halted ==> Shape(old(fs.vol), fs.g) && MkdirDone(Abs(old(fs.vol), fs.g), Abs(fs.vol, fs.g), Start(path, cwd), Comps(path), r)
  {
    hide Owned, Settled, DirSizes, FieldsOk, Tree.Ok, Abs, Created, Follows, Comps, CreateAnswer, Contents, Startable, ParentLinked, CreateHalts, PathMade, Refused, FilesKept;
    ghost var (v, k) := (fs.vol, fs.book);
    fs.dirty := {};
    StartsAbove(v, fs.g, fs.ref, path, cwd);
    var c := CreateFile(fs, cwd, path, DIRECTORY, stack);
    r, halted := -1, c.Halted?;
    if halted { return; }
    ghost var w := fs.vol;
    ValidStep(fs.g, v, k, w, fs.book, fs.dirty);
    assert fs.dirty - {} == fs.dirty;
    NullIsRefusal(v, w, fs.g, Start(path, cwd), Comps(path), DIRECTORY, c);
    if c.Found? {
      FoundIsNew(v, w, fs.g, Start(path, cwd), Comps(path), c);
      AnswerIsPath(v, w, fs.g, Start(path, cwd), Comps(path), DIRECTORY, c);
      ghost var d: nat, name: Name :| Created(v, w, fs.g, d, name, c.inum, DIRECTORY);
      CreatedAlive(v, w, fs.g, d, name, c.inum, DIRECTORY);
      PutLinked(fs, c.inum, old(fs.ref));
      StillUnused(v, w, fs.g, fs.ref, d, name, c.inum, DIRECTORY);
      r := 0;
    }
  }

  /** The log operation of sys_open with O_CREAT. */
  method OpenCreating(fs: Fs, cwd: nat, path: Path, stack: seq<byte>) returns (c: Call)
    requires fs.Valid() && World(fs.vol, fs.g) && FreeUnused(fs.vol, fs.g, fs.ref) && fs.g.ninodes <= 0x1_0000_0000
    requires Startable(fs.vol, fs.g, fs.ref, path, cwd) && ParentLinked(fs.vol, fs.g, cwd, path)
    requires ShortNames(Comps(path)) && |stack| == DIRENT
    modifies fs
    ensures c.Halted? <==> CreateHalts(old(fs.vol), fs.g, Start(path, cwd), Comps(path), FILE)
    ensures !c.Halted? ==> fs.Valid() && Step(fs.g, old(fs.vol), fs.vol, fs.dirty) && |fs.dirty| <= 9
    ensures !c.Halted? ==> World(fs.vol, fs.g) && FreeUnused(fs.vol, fs.g, fs.ref)
    ensures !c.Halted? ==> fs.ref == if c.Found? then Plus(old(fs.ref), c.inum) else old(fs.ref)
    ensures !c.Halted? && Referenced(old(fs.vol), fs.g, old(fs.ref)) ==> Referenced(fs.vol, fs.g, fs.ref)
    ensures !c.Halted? ==> FilesKept(old(fs.vol), fs.vol, fs.g, {})
    ensures !c.Halted? ==> Shape(old(fs.vol), fs.g) && OpenDone(Abs(old(fs.vol), fs.g), Abs(fs.vol, fs.g), Start(path, cwd), Comps(path), c)
  {
    hide Owned, Settled, DirSizes, FieldsOk, Tree.Ok, Abs, Follows, Comps, CreateAnswer, Startable, ParentLinked, CreateHalts, PathMade, Refused, FilesKept;
    ghost var (v, k) := (fs.vol, fs.book);
    fs.dirty := {};
    StartsAbove(v, fs.g, fs.ref, path, cwd);
    c := CreateFile(fs, cwd, path, FILE, stack);
    if c.Halted? { return; }
    ValidStep(fs.g, v, k, fs.vol, fs.book, fs.dirty);
    assert fs.dirty - {} == fs.dirty;
    NullIsRefusal(v, fs.vol, fs.g, Start(path, cwd), Comps(path), FILE, c);
    if c.Found? { AnswerIsPath(v, fs.vol, fs.g, Start(path, cwd), Comps(path), FILE, c); }
  }

  /** sys_unlink of this path stays within its reservation: if there is something to
      remove, the blocks to be logged are at most ten. */
  ghost predicate UnlinkFits(v: Vol, g: Geo, start: nat, cs: seq<Name>, ref: seq<nat>)
    requires World(v, g) && |ref| == g.ninodes
  {
    var t := Abs(v, g);
    var d := WalkParent(t, start, cs);
    cs == [] || d >= |t| ||
    var k := Find(t[d].slots, cs[|cs| - 1]);
    Tree.CanUnlink(t, d, k) && k / 8 < MAX_BLOCKS ==>
      |UnlinkSet(v, g, d, k, t[d].slots[k].inum, ref[t[d].slots[k].inum] == 0)| <= P.MAX_OPEN_BLOCKS
  }

  lemma UnlinkFitsExactly(v: Vol, w: Vol, g: Geo, start: nat, cs: seq<Name>, ref: seq<nat>, ref': seq<nat>, r: int, dirty: set<nat>)
    requires World(v, g) && World(w, g) && |ref| == g.ninodes && UnlinkAnswer(v, w, g, start, cs, ref, ref', r)
    requires UnlinkLogged(v, g, start, cs, ref, r, {}, dirty)
    ensures |dirty| <= P.MAX_OPEN_BLOCKS <==> UnlinkFits(v, g, start, cs, ref)
  {
    hide Tree.Ok, DirSizes, FieldsOk, FsCalls.Gone, Tree.Unlink, UnlinkSet;
    var t := Abs(v, g);
    var d := WalkParent(t, start, cs);
    if cs != [] && d < |t| {
      var k := Find(t[d].slots, cs[|cs| - 1]);
      assert r == 0 ==> dirty == UnlinkSet(v, g, d, k, t[d].slots[k].inum, ref[t[d].slots[k].inum] == 0);
    }
  }

  /** The log operation of sys_unlink. */
  method Unlinking(fs: Fs, cwd: nat, path: Path) returns (r: int, ok: bool)
    requires fs.Valid() && World(fs.vol, fs.g) && FreeUnused(fs.vol, fs.g, fs.ref)
    requires Startable(fs.vol, fs.g, fs.ref, path, cwd) && ShortNames(Comps(path))
    modifies fs
    ensures ok <==> !Strays(Abs(old(fs.vol), fs.g), Start(path, cwd), Comps(path))
    ensures ok ==> fs.Valid() && World(fs.vol, fs.g) && FreeUnused(fs.vol, fs.g, fs.ref)
    ensures ok && Referenced(old(fs.vol), fs.g, old(fs.ref)) ==> Referenced(fs.vol, fs.g, fs.ref)
    ensures ok ==> Step(fs.g, old(fs.vol), fs.vol, fs.dirty)
    ensures ok ==> UnlinkAnswer(old(fs.vol), fs.vol, fs.g, Start(path, cwd), Comps(path), old(fs.ref), fs.ref, r)
    ensures ok ==> OpenFilesKept(old(fs.vol), fs.vol, fs.g)
    ensures ok ==> UnlinkLogged(old(fs.vol), fs.g, Start(path, cwd), Comps(path), old(fs.ref), r, {}, fs.dirty)
    ensures ok ==> (|fs.dirty| <= P.MAX_OPEN_BLOCKS <==> UnlinkFits(old(fs.vol), fs.g, Start(path, cwd), Comps(path), old(fs.ref)))
  {
    hide Owned, Settled, DirSizes, FieldsOk, Tree.Ok, Abs, Follows, Comps, UnlinkAnswer, UnlinkLogged, UnlinkFits, Startable, Strays, OpenFilesKept;
    ghost var (v, k) := (fs.vol, fs.book);
    fs.dirty := {};
    r, ok := SysUnlink(fs, cwd, path);
    if !ok { return; }
    ValidStep(fs.g, v, k, fs.vol, fs.book, fs.dirty);
    UnlinkFitsExactly(v, fs.vol, fs.g, Start(path, cwd), Comps(path), old(fs.ref), fs.ref, r, fs.dirty);
  }

  /** One chunk of file_write: the step logs at most ten blocks. */
  method WritingChunk(fs: Fs, i: nat, src: seq<byte>, off: uint32) returns (r: WriteResult)
    requires fs.Valid() && World(fs.vol, fs.g) && InUse(fs.vol, fs.g, i) && fs.vol.tab[i].typ == FILE && |src| <= 3 * BLOCK_SIZE
    modifies fs
    ensures r != Panic ==> fs.Valid() && World(fs.vol, fs.g) && Step(fs.g, old(fs.vol), fs.vol, fs.dirty) && |fs.dirty| <= 10
    ensures r.Written? ==> Spliced(old(fs.vol), fs.vol, fs.g, i, off, src)
    ensures r.Refused? ==> fs.vol == old(fs.vol)
    ensures r.Panic? <==> off <= old(fs.vol).tab[i].size && off + |src| <= MAX_BLOCKS * BLOCK_SIZE
                          && FreeBits(old(fs.vol).bits) < Added(old(fs.vol).tab[i].size, off + |src|)
    ensures r.Refused? <==> off > old(fs.vol).tab[i].size || off + |src| > MAX_BLOCKS * BLOCK_SIZE
    ensures fs.ref == old(fs.ref)
    ensures r != Panic && FreeUnused(old(fs.vol), fs.g, fs.ref) ==> FreeUnused(fs.vol, fs.g, fs.ref)
    ensures r != Panic && Referenced(old(fs.vol), fs.g, fs.ref) ==> Referenced(fs.vol, fs.g, fs.ref)
  {
    hide Owned, Settled, DirSizes, FieldsOk, Tree.Ok, Abs, Follows, Spliced, FreeUnused, Referenced, Grows, Cost, Overwrote;
    ghost var (v, k) := (fs.vol, fs.book);
    fs.dirty := {};
    r := fs.InodeWrite(i, src, off);
    if r == Panic { return; }
    if r.Written? {
      WritesKeepTree(v, fs.vol, fs.g, i, off, src);
      SplicedRefs(v, fs.vol, fs.g, i, off, src, fs.ref);
      assert fs.dirty - {} == fs.dirty;
    }
    ValidStep(fs.g, v, k, fs.vol, fs.book, fs.dirty);
  }

  lemma SplicedRefs(v: Vol, w: Vol, g: Geo, i: nat, off: nat, src: seq<byte>, ref: seq<nat>)
    requires Spliced(v, w, g, i, off, src)
    ensures FreeUnused(v, g, ref) ==> FreeUnused(w, g, ref)
    ensures Referenced(v, g, ref) ==> Referenced(w, g, ref)
  {
    hide Contents, Splice;
    forall j | Inum(g, j) ensures w.tab[j].typ == v.tab[j].typ && w.tab[j].nlink == v.tab[j].nlink {
    }
  }

  /** The last reference goes, and what the release logs is at most ten blocks. */
  ghost predicate CloseFits(v: Vol, g: Geo, x: nat, valid: bool, ref: nat)
    requires Shape(v, g) && Inum(g, x)
  {
    Last(v.tab[x], valid, ref) ==> |ReleaseSet(v, g, x)| <= P.MAX_OPEN_BLOCKS
  }

  /** The inode is free, or nothing has changed. */
  predicate CloseDone(t: Tree.Nodes, u: Tree.Nodes, x: nat, last: bool) {
    x < |t| && u == if last then Tree.Release(t, x) else t
  }

  /** The log operation of file_close: one reference less, and the inode with it if
      it was the last and no entry is left. */
  method Closing(fs: Fs, x: nat, valid: bool)
    requires fs.Valid() && World(fs.vol, fs.g) && InUse(fs.vol, fs.g, x) && x != 0 && FreeUnused(fs.vol, fs.g, fs.ref) && fs.ref[x] >= 1
    modifies fs
    ensures fs.Valid() && World(fs.vol, fs.g) && fs.ref == old(fs.ref)[x := old(fs.ref)[x] - 1] && FreeUnused(fs.vol, fs.g, fs.ref)
    ensures valid && Referenced(old(fs.vol), fs.g, old(fs.ref)) ==> Referenced(fs.vol, fs.g, fs.ref)
    ensures Step(fs.g, old(fs.vol), fs.vol, fs.dirty)
    ensures Shape(old(fs.vol), fs.g) && CloseDone(Abs(old(fs.vol), fs.g), Abs(fs.vol, fs.g), x, Last(old(fs.vol).tab[x], valid, old(fs.ref)[x]))
    ensures OpenFilesKept(old(fs.vol), fs.vol, fs.g)
    ensures fs.dirty == if Last(old(fs.vol).tab[x], valid, old(fs.ref)[x]) then ReleaseSet(old(fs.vol), fs.g, x) else {}
    ensures |fs.dirty| <= P.MAX_OPEN_BLOCKS <==> CloseFits(old(fs.vol), fs.g, x, valid, old(fs.ref)[x])
  {
    hide Owned, Settled, DirSizes, FieldsOk, Tree.Ok, Abs, Follows, Alive, ReleaseSet, FilesKept;
    ghost var (v, k) := (fs.vol, fs.book);
    fs.dirty := {};
    PutUnlinked(fs, x, valid);
    assert OpenFilesKept(v, fs.vol, fs.g);
    ValidStep(fs.g, v, k, fs.vol, fs.book, fs.dirty);
    ClosedTypes(v, fs.vol, fs.g, x, valid, old(fs.ref));
  }

  lemma ClosedTypes(v: Vol, w: Vol, g: Geo, x: nat, valid: bool, ref: seq<nat>)
    requires World(v, g) && World(w, g) && InUse(v, g, x) && x != 0 && FreeUnused(v, g, ref) && ref[x] >= 1
    requires Abs(w, g) == if Last(v.tab[x], valid, ref[x]) then Tree.Release(Abs(v, g), x) else Abs(v, g)
    ensures var after := ref[x := ref[x] - 1];
            FreeUnused(w, g, after) && (valid && Referenced(v, g, ref) ==> Referenced(w, g, after))
  {
    hide Tree.Ok, Contents;
    forall j | 0 <= j < g.ninodes
      ensures j < |w.tab| && w.tab[j].typ == (if j == x && Last(v.tab[x], valid, ref[x]) then NONE else v.tab[j].typ)
      ensures j != x || !Last(v.tab[x], valid, ref[x]) ==> w.tab[j].nlink == v.tab[j].nlink
    {
      NodeType(v, g, j);
      NodeType(w, g, j);
    }
  }
}
