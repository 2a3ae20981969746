/** create_file and sys_unlink of kernel/syscall/sysfs.c: file system calls as
    steps of the directory tree. */
module FsCalls {
  import opened Blocks
  import opened Common
  import opened Volume
  import opened FileSystem
  import opened InodeLife
  import opened Directory
  import opened DirectoryCode
  import Tree
  import opened Paths
  import opened Namei

  // ------------------------------------------------------------------
  // Changes of a volume as changes of its tree
  // ------------------------------------------------------------------

  lemma AbsOthers(v: Vol, w: Vol, g: Geo, i: nat)
    requires OthersKept(v, w, g, i) && Inum(g, i)
    ensures Abs(w, g) == Abs(v, g)[i := NodeOf(w, g, i)]
  {
    hide Contents, Slots;
    forall j | 0 <= j < g.ninodes && j != i ensures NodeOf(w, g, j) == NodeOf(v, g, j) {
      assert w.tab[j] == v.tab[j];
      assert v.tab[j].typ == DIRECTORY ==> InUse(v, g, j);
    }
  }

  lemma AbsRewritten(v: Vol, w: Vol, g: Geo, d: nat, s: seq<Slot>)
    requires Rewritten(v, w, g, d, s)
    ensures Shape(v, g) && Shape(w, g) && d < |Abs(v, g)| && Abs(w, g) == Abs(v, g)[d := Abs(v, g)[d].(slots := s)]
  {
    hide Contents, Slots, OthersKept;
    AbsOthers(v, w, g, d);
  }

  function Nlinked(v: Vol, i: nat, n: nat): Vol
    requires i < |v.tab|
  {
    v.(tab := v.tab[i := v.tab[i].(nlink := n)])
  }

  /** A link count belongs to no other invariant of the volume. */
  lemma NlinkKeeps(v: Vol, g: Geo, k: Book, i: nat, n: nat)
    requires Owned(v, g, k) && Settled(v, g, k) && Inum(g, i) && i < |v.tab|
    ensures var w := Nlinked(v, i, n);
            && Owned(w, g, k) && Settled(w, g, k)
            && forall j :: Inum(g, j) && v.tab[j].size <= MAX_BLOCKS * BLOCK_SIZE ==> Contents(w, g, j) == Contents(v, g, j)
  {
    hide Blocks.Word;
    var w := Nlinked(v, i, n);
    forall j, pos | Inum(g, j) && 0 <= pos <= INDIRECT ensures Addr(w, g, j, pos) == Addr(v, g, j, pos) {
      AddrSame(v, w, g, j, pos);
    }
    hide Addr;
    forall j, pos | InUse(w, g, j) && 0 <= pos <= INDIRECT ensures PosOk(w, g, k, j, pos) {
      assert PosOk(v, g, k, j, pos);
    }
    forall b | b in k.owner ensures BitOk(w, g, k, b) { assert BitOk(v, g, k, b); }
    forall j | Inum(g, j) && v.tab[j].size <= MAX_BLOCKS * BLOCK_SIZE ensures Contents(w, g, j) == Contents(v, g, j) {
      forall x | 0 <= x < v.tab[j].size ensures Byte(w, g, j, x) == Byte(v, g, j, x) { }
    }
  }

  lemma AbsNlinked(v: Vol, g: Geo, k: Book, i: nat, n: nat)
    requires Owned(v, g, k) && Settled(v, g, k) && Inum(g, i) && i < |v.tab|
    ensures var w := Nlinked(v, i, n);
            && Shape(v, g) && Shape(w, g) && i < |Abs(v, g)| && Abs(w, g) == Abs(v, g)[i := Abs(v, g)[i].(nlink := n)]
            && OthersKept(v, w, g, i)
  {
    hide Contents, Slots, Owned, Settled;
    NlinkKeeps(v, g, k, i, n);
    OwnedSizes(Snap(v, k, {}), g);
    OwnedSizes(Snap(Nlinked(v, i, n), k, {}), g);
    AbsOthers(v, Nlinked(v, i, n), g, i);
  }

  lemma NlinkedFiles(v: Vol, g: Geo, k: Book, i: nat, n: nat)
    requires Owned(v, g, k) && Settled(v, g, k) && Inum(g, i) && i < |v.tab|
    ensures FilesKept(v, Nlinked(v, i, n), g, {})
  {
    hide Contents, Owned, Settled;
    NlinkKeeps(v, g, k, i, n);
    OwnedSizes(Snap(v, k, {}), g);
    OwnedSizes(Snap(Nlinked(v, i, n), k, {}), g);
  }

  /** `nlink = n; inode_update`. */
  method SetNlink(fs: Fs, i: nat, n: nat)
    requires fs.Valid() && Inum(fs.g, i) && i < |fs.vol.tab|
    modifies fs`vol, fs`slots, fs`dirty
    ensures fs.Valid() && fs.vol == Nlinked(old(fs.vol), i, n)
    ensures Shape(old(fs.vol), fs.g) && Shape(fs.vol, fs.g) && i < |Abs(old(fs.vol), fs.g)|
    ensures Abs(fs.vol, fs.g) == Abs(old(fs.vol), fs.g)[i := Abs(old(fs.vol), fs.g)[i].(nlink := n)]
    ensures OthersKept(old(fs.vol), fs.vol, fs.g, i) && fs.dirty == old(fs.dirty) + {InodeBlockNo(fs.g, i)}
    ensures FilesKept(old(fs.vol), fs.vol, fs.g, {})
    ensures Follows(fs.g, old(fs.Disk()), fs.Disk())
  {
    hide Owned, Settled, Contents, Slots, Follows, FilesKept;
    OwnedSizes(fs.Now(), fs.g);
    NlinkedFiles(fs.vol, fs.g, fs.book, i, n);
    NlinkKeeps(fs.vol, fs.g, fs.book, i, n);
    AbsNlinked(fs.vol, fs.g, fs.book, i, n);
    fs.vol := fs.vol.(tab := fs.vol.tab[i := fs.vol.tab[i].(nlink := n)]);
    fs.InodeUpdate(i);
  }

  /** A directory entry on the kernel stack: number and name are set, the bytes
      behind the NUL are whatever was there. */
  function Encode(inum: uint32, name: Name, stack: seq<byte>): (b: seq<byte>)
    requires |stack| == DIRENT && |name| < NAME_LEN
    ensures |b| == DIRENT
  {
    NumBytes(inum) + (name + [0] + stack[|name| + 5..])
  }

  function NumBytes(w: uint32): (b: seq<byte>)
    ensures |b| == 4
  {
    FourBytes(w);
    [w % 0x100, w / 0x100 % 0x100, w / 0x1_0000 % 0x100, w / 0x100_0000]
  }

  lemma DecodeEncode(inum: uint32, name: Name, stack: seq<byte>)
    requires |stack| == DIRENT && |name| < NAME_LEN && 0 !in name
    ensures Decode(Encode(inum, name, stack)) == Slot(inum, name)
  {
    var text := name + [0] + stack[|name| + 5..];
    CStringStops(name, 0, stack[|name| + 5..]);
    NumReads(inum, text);
  }

  lemma NumReads(inum: uint32, text: seq<byte>)
    requires |text| == NAME_LEN
    ensures Decode(NumBytes(inum) + text) == Slot(inum, CString(text, 0))
  {
    hide CString;
    FourBytes(inum);
    var b := NumBytes(inum) + text;
    assert b[4..] == text && b[0] == NumBytes(inum)[0] && b[1] == NumBytes(inum)[1] && b[2] == NumBytes(inum)[2] && b[3] == NumBytes(inum)[3];
  }

  /** path_valid_name; char is signed, so bytes from 128 on are refused as well. */
  predicate ValidName(n: Name) {
    && 0 < |n| <= NAME_LEN && n[0] !in {43, 45, 46}
    && forall i :: 0 <= i < |n| ==> 31 < n[i] < 127 && n[i] != SLASH
  }

  /** `strcpy(dirent.name, n)` and the copy into the caller's buffer: 60 bytes, the
      NUL included. */
  predicate HasRoom(n: Name) { |n| + 1 <= NAME_LEN }

  /** A valid name has room exactly if it is not of full length, and there are valid
      names of full length. */
  lemma LongestName() returns (long: Name)
    ensures forall n :: ValidName(n) ==> (HasRoom(n) <==> |n| != NAME_LEN)
    ensures ValidName(long) && !HasRoom(long)
  {
    long := seq(NAME_LEN, i => 97);
  }

  method PathValidName(n: Name) returns (ok: bool)
    ensures ok <==> ValidName(n)
    ensures ok <==> 1 <= |n| <= 60 && n[0] !in {43, 45, 46} && forall i :: 0 <= i < |n| ==> 32 <= n[i] <= 126 && n[i] != 47
  {
    if |n| == 0 || |n| > NAME_LEN || n[0] == 43 || n[0] == 45 || n[0] == 46 {
      return false;
    }
    var i := 0;
    while i < |n|
      invariant 0 <= i <= |n| && forall j :: 0 <= j < i ==> 31 < n[j] < 127 && n[j] != SLASH
    {
      if n[i] <= 31 || n[i] >= 128 || n[i] == SLASH || n[i] == 127 {
        return false;
      }
      i := i + 1;
    }
    ok := true;
  }

  // ------------------------------------------------------------------
  // create_file
  // ------------------------------------------------------------------

  /** Free inodes have no references. */
  predicate FreeUnused(v: Vol, g: Geo, ref: seq<nat>) {
    |ref| == g.ninodes == |v.tab| && forall i :: 0 <= i < |ref| && v.tab[i].typ == NONE ==> ref[i] == 0
  }

  lemma AbsFresh(v: Vol, w: Vol, g: Geo, x: nat, typ: InodeType)
    requires OthersKept(v, w, g, x) && Inum(g, x) && w.tab[x] == FreshInode(typ)
    ensures Abs(w, g) == Abs(v, g)[x := Tree.Node(typ, 0, [])]
  {
    hide Contents;
    AbsOthers(v, w, g, x);
    assert NodeOf(w, g, x) == Tree.Node(typ, 0, []);
  }

  /** inode_alloc and iget, then one link. */
  method NewInode(fs: Fs, typ: InodeType) returns (x: nat)
    requires fs.Valid() && typ != NONE && fs.g.ninodes > 0 && FreeUnused(fs.vol, fs.g, fs.ref)
    modifies fs
    ensures fs.Valid()
    ensures x == 0 ==> fs.Now() == old(fs.Now()) && fs.ref == old(fs.ref)
    ensures x != 0 ==> Lowest(old(fs.vol), x) && Inum(fs.g, x) && OthersKept(old(fs.vol), fs.vol, fs.g, x)
    ensures x != 0 ==> fs.vol.tab[x] == FreshInode(typ).(nlink := 1) && fs.ref == Plus(old(fs.ref), x) && fs.ref[x] == 1
    ensures x != 0 ==> Abs(fs.vol, fs.g) == Abs(old(fs.vol), fs.g)[x := Tree.Node(typ, 1, [])]
    ensures x != 0 ==> fs.dirty == old(fs.dirty) + {InodeBlockNo(fs.g, x)}
    ensures (x == 0 <==> NoInode(old(fs.vol))) && fs.vol.bits == old(fs.vol).bits
    ensures x != 0 ==> FilesKept(old(fs.vol), fs.vol, fs.g, {})
    ensures Follows(fs.g, old(fs.Disk()), fs.Disk())
  {
    hide Owned, Settled, Contents, OthersKept, Abs, Follows, FilesKept;
    ghost var (v, d0) := (fs.vol, fs.Disk());
    OwnedSizes(fs.Now(), fs.g);
    x := InodeAlloc(fs, typ);
    if x == 0 {
      forall j | 1 <= j < |v.tab| ensures v.tab[j].typ != NONE { assert InUse(v, fs.g, j); }
    }
    if x != 0 {
      ghost var w := fs.vol;
      forall j | 1 <= j < x ensures v.tab[j].typ != NONE { assert InUse(v, fs.g, j); }
      OwnedSizes(fs.Now(), fs.g);
      AbsFresh(v, w, fs.g, x, typ);
      fs.ref := fs.ref[x := fs.ref[x] + 1];
      ghost var d1 := fs.Disk();
      SetNlink(fs, x, 1);
      FollowsTrans(fs.g, d0, d1, fs.Disk());
      OthersKeptTrans(v, w, fs.vol, fs.g, x);
      FilesKeptOthers(v, fs.vol, fs.g, x);
    }
  }

  /** Every inode but the first is in use. */
  predicate NoInode(v: Vol) {
    forall j :: 1 <= j < |v.tab| ==> v.tab[j].typ != NONE
  }

  /** The first free inode. */
  predicate Lowest(v: Vol, x: nat) {
    0 < x < |v.tab| && v.tab[x].typ == NONE && forall j :: 1 <= j < x ==> v.tab[j].typ != NONE
  }

  lemma NamesOkKept(v: Vol, w: Vol, g: Geo, x: int, s: seq<Slot>)
    requires NamesOk(v, g, s) && OthersKept(v, w, g, x) && !InUse(v, g, x)
    ensures NamesOk(w, g, s)
  {
    hide Contents;
    forall k | 0 <= k < |s| && Live(s[k]) ensures InUse(w, g, s[k].inum) && w.tab[s[k].inum].nlink >= 1 {
      assert InUse(v, g, s[k].inum) && w.tab[s[k].inum] == v.tab[s[k].inum];
    }
  }

  lemma DirKept(v: Vol, w: Vol, g: Geo, x: int, d: int)
    requires IsDir(v, g, d) && OthersKept(v, w, g, x) && d != x
    ensures IsDir(w, g, d) && SlotsOf(w, g, d) == SlotsOf(v, g, d) && w.tab[d] == v.tab[d]
  {
    hide Contents, Slots;
    assert w.tab[d] == v.tab[d];
  }

  lemma FirstLinks(x: nat, d: nat)
    ensures Linked([], Slot(x, DOT)) == [Slot(x, DOT)]
    ensures x != 0 ==> Linked([Slot(x, DOT)], Slot(d, DOTDOT)) == Tree.Dots(x, d)
    ensures Resolve([], DOT) == 0 && Resolve([Slot(x, DOT)], DOTDOT) == 0
  {
    assert FirstFree([]) == 0 && Find([], DOT) == 0;
    var s := [Slot(x, DOT)];
    assert x != 0 ==> Live(s[0]);
    assert Find(s, DOTDOT) == 1;
  }

  predicate SameKind(d: Dinode, e: Dinode) {
    e.typ == d.typ && e.major == d.major && e.minor == d.minor
  }

  /** dir_make on an empty directory: the dots, then one more link to the
      parent. */
  method DirMake(fs: Fs, d: nat, x: nat, stack: seq<byte>) returns (r: Outcome)
    requires fs.Valid() && |fs.ref| == fs.g.ninodes && |stack| == DIRENT && fs.g.ninodes <= 0x1_0000_0000
    requires IsDir(fs.vol, fs.g, d) && IsDir(fs.vol, fs.g, x) && x != d && x != 0 && d != 0
    requires fs.vol.tab[x].size == 0 && fs.vol.tab[x].nlink == 1
    modifies fs
    ensures r != Denied && fs.ref == old(fs.ref)
    ensures r == Done ==> fs.Valid() && Shape(old(fs.vol), fs.g) && IsDir(fs.vol, fs.g, x) && IsDir(fs.vol, fs.g, d)
    ensures r == Done ==>
              var t := Abs(old(fs.vol), fs.g);
              Abs(fs.vol, fs.g) == t[x := t[x].(slots := Tree.Dots(x, d))][d := t[d].(nlink := t[d].nlink + 1)]
    ensures r == Done ==> forall j :: Inum(fs.g, j) && j != x && j != d ==> fs.vol.tab[j] == old(fs.vol).tab[j]
    ensures r == Done ==> SameKind(old(fs.vol).tab[x], fs.vol.tab[x]) && SameKind(old(fs.vol).tab[d], fs.vol.tab[d])
    ensures r == Done ==> Grows(old(fs.dirty), fs.dirty, {InodeBlockNo(fs.g, x), InodeBlockNo(fs.g, d)}, 3)
    ensures (r == Panicked <==> FreeBits(old(fs.vol).bits) == 0) && (r == Done ==> FreeBits(fs.vol.bits) + 1 == FreeBits(old(fs.vol).bits))
    ensures r == Done ==> FilesKept(old(fs.vol), fs.vol, fs.g, {})
    ensures Follows(fs.g, old(fs.Disk()), fs.Disk())
  {
    hide Owned, Settled, Contents, OthersKept, Abs, Follows, Grows, IsDir, Tree.Dots, FreeBits, FilesKept;
    ghost var v, g := fs.vol, fs.g;
    ghost var d0 := fs.Disk();
    r := MakeDots(fs, d, x, stack);
    if r != Done { return; }
    ghost var u := fs.vol;
    DirUse(u, g, d);
    ghost var d2 := fs.Disk();
    SetNlink(fs, d, fs.vol.tab[d].nlink + 1);
    FollowsTrans(g, d0, d2, fs.Disk());
    DirKept(u, fs.vol, g, d, x);
    NlinkedDir(u, g, d, fs.vol.tab[d].nlink);
    OthersTab(u, fs.vol, g, d);
    FilesKeptChain(v, u, fs.vol, g);
    GrowsThree(d0.dirty, d2.dirty, fs.dirty, InodeBlockNo(g, x), InodeBlockNo(g, d));
  }

  /** The two entries of a new directory. */
  method MakeDots(fs: Fs, d: nat, x: nat, stack: seq<byte>) returns (r: Outcome)
    requires fs.Valid() && |fs.ref| == fs.g.ninodes && |stack| == DIRENT && fs.g.ninodes <= 0x1_0000_0000
    requires IsDir(fs.vol, fs.g, d) && IsDir(fs.vol, fs.g, x) && x != d && x != 0 && d != 0
    requires fs.vol.tab[x].size == 0 && fs.vol.tab[x].nlink == 1
    modifies fs
    ensures r != Denied && fs.ref == old(fs.ref)
    ensures r == Done ==> fs.Valid() && Shape(old(fs.vol), fs.g) && IsDir(fs.vol, fs.g, x) && IsDir(fs.vol, fs.g, d)
    ensures r == Done ==> var t := Abs(old(fs.vol), fs.g); Abs(fs.vol, fs.g) == t[x := t[x].(slots := Tree.Dots(x, d))]
    ensures r == Done ==> forall j :: Inum(fs.g, j) && j != x ==> fs.vol.tab[j] == old(fs.vol).tab[j]
    ensures r == Done ==> SameKind(old(fs.vol).tab[x], fs.vol.tab[x])
    ensures r == Done ==> Grows(old(fs.dirty), fs.dirty, {InodeBlockNo(fs.g, x)}, 3)
    ensures (r == Panicked <==> FreeBits(old(fs.vol).bits) == 0) && (r == Done ==> FreeBits(fs.vol.bits) + 1 == FreeBits(old(fs.vol).bits))
    ensures r == Done ==> FilesKept(old(fs.vol), fs.vol, fs.g, {})
    ensures Follows(fs.g, old(fs.Disk()), fs.Disk())
  {
    hide Owned, Settled, Contents, OthersKept, Abs, Encode, Decode, Linked, Resolve, Follows, Grows, SlotCost, FreeBits, SlotNeed, FilesKept;
    SlotNeeds(0, 0);
    ghost var v, g := fs.vol, fs.g;
    ghost var d0 := fs.Disk();
    FirstLinks(x, d);
    DecodeEncode(x, DOT, stack);
    DecodeEncode(d, DOTDOT, stack);
    EmptyDir(v, g, x);
    SlotCosts(0, 0);
    r := DirLink(fs, x, Encode(x, DOT, stack));
    if r != Done { return; }
    ghost var w := fs.vol;
    AbsRewritten(v, w, g, x, [Slot(x, DOT)]);
    RewrittenTab(v, w, g, x, [Slot(x, DOT)]);
    OneSlot(w, g, x, Slot(x, DOT));
    DirKept(v, w, g, x, d);
    ghost var d1 := fs.Disk();
    r := DirLink(fs, x, Encode(d, DOTDOT, stack));
    FollowsTrans(g, d0, d1, fs.Disk());
    if r != Done { return; }
    ghost var u := fs.vol;
    AbsRewritten(w, u, g, x, Tree.Dots(x, d));
    RewrittenTab(w, u, g, x, Tree.Dots(x, d));
    DirKept(w, u, g, x, d);
    RewrittenFiles(v, w, g, x, [Slot(x, DOT)]);
    RewrittenFiles(w, u, g, x, Tree.Dots(x, d));
    FilesKeptChain(v, w, u, g);
    GrowsTrans(d0.dirty, d1.dirty, fs.dirty, {InodeBlockNo(g, x)}, {InodeBlockNo(g, x)}, 2, 1);
    assert {InodeBlockNo(g, x)} + {InodeBlockNo(g, x)} == {InodeBlockNo(g, x)};
  }

  lemma GrowsThree(a: set<nat>, c: set<nat>, e: set<nat>, x: nat, d: nat)
    requires Grows(a, c, {x}, 3) && e == c + {d}
    ensures Grows(a, e, {x, d}, 3)
  {
    hide Grows;
    GrowsFixed(c, e, {d});
    GrowsTrans(a, c, e, {x}, {d}, 3, 0);
    assert {x} + {d} == {x, d};
  }

  lemma OneSlot(v: Vol, g: Geo, x: nat, e: Slot)
    requires IsDir(v, g, x) && SlotsOf(v, g, x) == [e] && Live(e)
    ensures v.tab[x].size == DIRENT && FirstFree(SlotsOf(v, g, x)) == 1
  {
    hide Contents;
    SizeIs(v, g, x);
  }

  lemma EmptyDir(v: Vol, g: Geo, x: nat)
    requires IsDir(v, g, x) && v.tab[x].size == 0
    ensures SlotsOf(v, g, x) == [] && NamesOk(v, g, SlotsOf(v, g, x)) && FirstFree(SlotsOf(v, g, x)) == 0
  {
    hide Contents;
  }

  lemma OthersTab(v: Vol, w: Vol, g: Geo, i: int)
    requires OthersKept(v, w, g, i)
    ensures Shape(v, g) && Shape(w, g) && forall j :: Inum(g, j) && j != i ==> w.tab[j] == v.tab[j]
  {
  }

  lemma RewrittenTab(v: Vol, w: Vol, g: Geo, d: nat, s: seq<Slot>)
    requires Rewritten(v, w, g, d, s)
    ensures OthersKept(v, w, g, d) && IsDir(v, g, d) && IsDir(w, g, d) && SlotsOf(w, g, d) == s
    ensures w.tab[d].nlink == v.tab[d].nlink && SameKind(v.tab[d], w.tab[d])
    ensures forall j :: Inum(g, j) && j != d ==> w.tab[j] == v.tab[j]
  {
    hide Contents, Slots;
  }

  lemma RewrittenFiles(v: Vol, w: Vol, g: Geo, d: nat, s: seq<Slot>)
    requires Rewritten(v, w, g, d, s)
    ensures FilesKept(v, w, g, {})
  {
    hide Contents, Slots, OthersKept, FilesKept;
    FilesKeptOthers(v, w, g, d);
  }

  lemma NlinkedDir(v: Vol, g: Geo, d: nat, n: nat)
    requires IsDir(v, g, d)
    ensures IsDir(Nlinked(v, d, n), g, d)
  {
  }

  datatype Call = Found(inum: nat) | Null | Halted

  /** A directory in which no further entry fits. */
  predicate Full(s: seq<Slot>) {
    FirstFree(s) == |s| && |s| * DIRENT == MAX_BLOCKS * BLOCK_SIZE
  }

  /** The tree after a successful create_file of a new inode. */
  ghost predicate Created(v: Vol, w: Vol, g: Geo, d: nat, name: Name, x: nat, typ: InodeType) {
    && World(v, g) && World(w, g) && Lowest(v, x)
    && Tree.CanCreate(Abs(v, g), d, name, x, typ)
    && Abs(w, g) == Tree.Create(Abs(v, g), d, name, x, typ)
  }

  /** Inode `x` exists with one link; inode `d` is a directory; nothing else has
      changed. */
  ghost predicate Making(v: Vol, w: Vol, g: Geo, d: nat, x: nat, typ: InodeType) {
    && Shape(v, g) && Shape(w, g) && Lowest(v, x) && d != x && Inum(g, x) && IsDir(w, g, d)
    && w.tab[x].typ == typ && (typ == DIRECTORY ==> IsDir(w, g, x)) && FieldOk(w.tab[x]) && FieldOk(w.tab[d])
    && (forall j :: Inum(g, j) && j != x && j != d ==> w.tab[j] == v.tab[j])
  }

  lemma MadeFresh(v: Vol, w: Vol, g: Geo, d: nat, x: nat, typ: InodeType)
    requires OthersKept(v, w, g, x) && Lowest(v, x) && Inum(g, x) && d != x && IsDir(w, g, d)
    requires w.tab[x] == FreshInode(typ).(nlink := 1) && typ != NONE && FieldsOk(v)
    ensures Making(v, w, g, d, x, typ) && InUse(w, g, x)
  {
  }

  lemma MadeLinked(v: Vol, w: Vol, u: Vol, g: Geo, d: nat, x: nat, typ: InodeType, s: seq<Slot>)
    requires Making(v, w, g, d, x, typ) && Rewritten(w, u, g, d, s)
    ensures Making(v, u, g, d, x, typ) && u.tab[x] == w.tab[x] && Abs(u, g) == Abs(w, g)[d := Abs(w, g)[d].(slots := s)]
  {
    hide Contents, Slots, Abs;
    AbsRewritten(w, u, g, d, s);
    RewrittenTab(w, u, g, d, s);
    if typ == DIRECTORY { DirKept(w, u, g, d, x); }
  }

  /** inode_alloc or balloc panics: no inode is free, or fewer blocks than the entry and
      the first block of a new directory need. */
  ghost predicate Starved(v: Vol, g: Geo, d: nat, typ: InodeType)
    requires Shape(v, g)
  {
    NoInode(v) ||
    (d < |Abs(v, g)| && d < |v.tab| && !Full(Abs(v, g)[d].slots) &&
     FreeBits(v.bits) < SlotNeed(v.tab[d].size, FirstFree(Abs(v, g)[d].slots)) + if typ == DIRECTORY then 1 else 0)
  }

  /** The part of create_file that makes a new inode `x` in directory `d`. */
  method CreateIn(fs: Fs, d: nat, name: Name, typ: InodeType, stack: seq<byte>) returns (r: Call)
    requires fs.Valid() && World(fs.vol, fs.g) && FreeUnused(fs.vol, fs.g, fs.ref) && fs.g.ninodes <= 0x1_0000_0000
    requires Tree.LinkedDir(Abs(fs.vol, fs.g), d) && Resolve(Abs(fs.vol, fs.g)[d].slots, name) == 0
    requires ValidName(name) && |name| < NAME_LEN && typ in {FILE, DIRECTORY} && |stack| == DIRENT
    modifies fs
    ensures r.Found? ==> fs.Valid() && Created(old(fs.vol), fs.vol, fs.g, d, name, r.inum, typ)
                         && fs.ref == Plus(old(fs.ref), r.inum)
    ensures r.Null? ==> fs.Valid() && World(fs.vol, fs.g) && Abs(fs.vol, fs.g) == Abs(old(fs.vol), fs.g) && fs.ref == old(fs.ref)
    ensures !r.Halted? ==> (r.Null? <==> Full(old(Abs(fs.vol, fs.g)[d].slots)))
    ensures !r.Halted? ==> |fs.dirty - old(fs.dirty)| <= 9
    ensures r.Halted? <==> Starved(old(fs.vol), fs.g, d, typ)
    ensures !r.Halted? ==> FilesKept(old(fs.vol), fs.vol, fs.g, {})
    ensures Follows(fs.g, old(fs.Disk()), fs.Disk())
  {
    hide Owned, Settled, Contents, OthersKept, Abs, Encode, Decode, Resolve, Tree.Ok, Find, IsDir, FirstFree, Rewritten, Created, DirSizes, FieldsOk, Follows, Grows, SlotCost, FreeBits, SlotNeed, NoInode, FilesKept;
    ghost var v, g, t := fs.vol, fs.g, Abs(fs.vol, fs.g);
    ghost var d0 := fs.Disk();
    WorldDir(v, g, d);
    var x := NewInode(fs, typ);
    if x == 0 { return Halted; }
    ghost var w := fs.vol;
    Separate(v, w, g, d, x);
    MadeFresh(v, w, g, d, x, typ);
    DecodeEncode(x, name, stack);
    ghost var d1 := fs.Disk();
    var o := DirLink(fs, d, Encode(x, name, stack));
    FollowsTrans(g, d0, d1, fs.Disk());
    ghost var d2 := fs.Disk();
    if o == Panicked { return Halted; }
    if o == Denied {
      Undo(fs, x);
      FollowsTrans(g, d0, d2, fs.Disk());
      Undone(v, w, fs.vol, g, x, typ);
      FilesKeptTrans(v, w, fs.vol, g, {}, {x});
      NoFileGone(v, fs.vol, g, x);
      assert fs.dirty - d0.dirty <= {InodeBlockNo(g, x)};
      SubsetSize(fs.dirty - d0.dirty, {InodeBlockNo(g, x)});
      return Null;
    }
    LinkCost(w, g, d);
    ghost var u := fs.vol;
    RewrittenFiles(w, u, g, d, Linked(t[d].slots, Slot(x, name)));
    FilesKeptChain(v, w, u, g);
    MadeLinked(v, w, fs.vol, g, d, x, typ, Linked(t[d].slots, Slot(x, name)));
    var ok := FinishCreate(fs, d, name, x, typ, stack, v);
    FollowsTrans(g, d0, d2, fs.Disk());
    if !ok { return Halted; }
    FilesKeptChain(v, u, fs.vol, g);
    CreateCost(d0.dirty, d1.dirty, d2.dirty, fs.dirty, InodeBlockNo(g, x), InodeBlockNo(g, d), SlotCost(w.tab[d].size, FirstFree(SlotsOf(w, g, d))));
    return Found(x);
  }

  lemma NoFileGone(v: Vol, w: Vol, g: Geo, x: nat)
    requires FilesKept(v, w, g, {} + {x}) && Lowest(v, x)
    ensures FilesKept(v, w, g, {})
  {
    hide Contents, FileKept;
  }

  /** Nine blocks: both inodes, four for the entry and three for the dots. */
  lemma CreateCost(a: set<nat>, b: set<nat>, c: set<nat>, e: set<nat>, x: nat, d: nat, n: nat)
    requires b == a + {x} && Grows(b, c, {d}, n) && n <= 4 && Grows(c, e, {x, d}, 3)
    ensures |e - a| <= 9
  {
    hide Grows;
    GrowsFixed(a, b, {x});
    GrowsTrans(a, b, c, {x}, {d}, 0, n);
    GrowsTrans(a, c, e, {x} + {d}, {x, d}, n, 3);
    assert {x} + {d} + {x, d} == {x, d};
    GrowsTotal(a, e, {x, d}, n + 3);
  }

  lemma LinkCost(v: Vol, g: Geo, d: nat)
    requires IsDir(v, g, d)
    ensures SlotCost(v.tab[d].size, FirstFree(SlotsOf(v, g, d))) <= 4
  {
    hide Contents, SlotCost;
    SizeIs(v, g, d);
    SlotCosts(v.tab[d].size, FirstFree(SlotsOf(v, g, d)));
  }

  /** The dots of a new directory, if it is one. */
  method FinishCreate(fs: Fs, d: nat, name: Name, x: nat, typ: InodeType, stack: seq<byte>, ghost v: Vol) returns (ok: bool)
    requires fs.Valid() && Making(v, fs.vol, fs.g, d, x, typ) && fs.vol.tab[x] == FreshInode(typ).(nlink := 1)
    requires |fs.ref| == fs.g.ninodes && |stack| == DIRENT && fs.g.ninodes <= 0x1_0000_0000
    requires World(v, fs.g) && Tree.LinkedDir(Abs(v, fs.g), d) && Resolve(Abs(v, fs.g)[d].slots, name) == 0
    requires ValidName(name) && typ in {FILE, DIRECTORY}
    requires var t := Abs(v, fs.g);
             var t1 := t[x := Tree.Node(typ, 1, [])];
             Abs(fs.vol, fs.g) == t1[d := t1[d].(slots := Linked(t[d].slots, Slot(x, name)))]
    modifies fs
    ensures fs.ref == old(fs.ref)
    ensures ok ==> fs.Valid() && Created(v, fs.vol, fs.g, d, name, x, typ)
    ensures ok ==> Grows(old(fs.dirty), fs.dirty, {InodeBlockNo(fs.g, x), InodeBlockNo(fs.g, d)}, 3)
    ensures !ok <==> typ == DIRECTORY && FreeBits(old(fs.vol).bits) == 0
    ensures ok ==> FilesKept(old(fs.vol), fs.vol, fs.g, {})
    ensures Follows(fs.g, old(fs.Disk()), fs.Disk())
  {
    hide Owned, Settled, Contents, Abs, Resolve, Tree.Ok, Linked, IsDir, World, Created, Follows, Grows, FreeBits, FilesKept;
    FollowsRefl(fs.g, fs.Disk());
    FilesKeptRefl(fs.vol, fs.g);
    GrowsNot(fs.dirty, {InodeBlockNo(fs.g, x), InodeBlockNo(fs.g, d)}, 3);
    MadeTree(Abs(v, fs.g), d, name, x, typ);
    if typ == DIRECTORY {
      var o := DirMake(fs, d, x, stack);
      if o != Done { return false; }
      DirTyp(fs.vol, fs.g, x);
    }
    NewWorld(v, fs.vol, fs.g, d, name, x, typ);
    ok := true;
  }

  lemma GrowsNot(a: set<nat>, f: set<nat>, n: nat)
    ensures Grows(a, a, f, n)
  {
    assert a - a - f == {};
  }

  lemma DirTyp(v: Vol, g: Geo, i: nat)
    requires IsDir(v, g, i)
    ensures Shape(v, g) && i < |v.tab| && v.tab[i].typ == DIRECTORY
  {
  }

  /** The new inode is not `d`, and `d` looks as before. */
  lemma Separate(v: Vol, w: Vol, g: Geo, d: nat, x: nat)
    requires World(v, g) && Tree.LinkedDir(Abs(v, g), d) && Lowest(v, x) && OthersKept(v, w, g, x)
    ensures x != d && IsDir(w, g, d) && SlotsOf(w, g, d) == Abs(v, g)[d].slots && NamesOk(w, g, SlotsOf(w, g, d))
    ensures w.tab[d] == v.tab[d]
  {
    hide Tree.Ok, Contents, Slots;
    assert Abs(v, g)[d] == NodeOf(v, g, d);
    WorldDir(v, g, d);
    DirKept(v, w, g, x, d);
    NamesOkKept(v, w, g, x, SlotsOf(v, g, d));
  }

  /** The steps of create_file make up one Create. */
  lemma MadeTree(t: Tree.Nodes, d: nat, name: Name, x: nat, typ: InodeType)
    requires d < |t| && x < |t| && d != x
    ensures var t1 := t[x := Tree.Node(typ, 1, [])];
            var t2 := t1[d := t1[d].(slots := Linked(t[d].slots, Slot(x, name)))];
            var t3 := t2[x := t2[x].(slots := Tree.Dots(x, d))][d := t2[d].(nlink := t2[d].nlink + 1)];
            Tree.Create(t, d, name, x, typ) == if typ == DIRECTORY then t3 else t2
  {
    hide Linked;
    var t1 := t[x := Tree.Node(typ, 1, [])];
    var t2 := t1[d := t1[d].(slots := Linked(t[d].slots, Slot(x, name)))];
    var t3 := t2[x := t2[x].(slots := Tree.Dots(x, d))][d := t2[d].(nlink := t2[d].nlink + 1)];
    var u := Tree.Create(t, d, name, x, typ);
    var e := if typ == DIRECTORY then t3 else t2;
    assert forall i :: 0 <= i < |t| ==> u[i] == e[i];
  }

  lemma NewWorld(v: Vol, w: Vol, g: Geo, d: nat, name: Name, x: nat, typ: InodeType)
    requires World(v, g) && Lowest(v, x) && Tree.LinkedDir(Abs(v, g), d) && Resolve(Abs(v, g)[d].slots, name) == 0
    requires ValidName(name) && typ in {FILE, DIRECTORY} && d != x && IsDir(w, g, d)
    requires w.tab[x].typ == typ && (typ == DIRECTORY ==> IsDir(w, g, x)) && FieldOk(w.tab[x]) && FieldOk(w.tab[d])
    requires forall j :: Inum(g, j) && j != x && j != d ==> w.tab[j] == v.tab[j]
    requires Abs(w, g) == Tree.Create(Abs(v, g), d, name, x, typ)
    ensures Created(v, w, g, d, name, x, typ)
  {
    hide Tree.Ok, Contents, Slots, Tree.Create, Resolve;
    assert Abs(v, g)[x] == NodeOf(v, g, x);
    Tree.CreateKeeps(Abs(v, g), d, name, x, typ);
  }

  lemma Undone(v: Vol, w: Vol, u: Vol, g: Geo, x: nat, typ: InodeType)
    requires World(v, g) && Lowest(v, x) && OthersKept(v, w, g, x) && OthersKept(w, u, g, x)
    requires Abs(w, g) == Abs(v, g)[x := Tree.Node(typ, 1, [])] && u.tab[x].typ == NONE && FieldOk(u.tab[x])
    ensures World(u, g) && Abs(u, g) == Abs(v, g)
  {
    hide Tree.Ok, Contents, Slots;
    assert Abs(v, g)[x] == NodeOf(v, g, x) == Tree.Node(NONE, 0, []);
    AbsOthers(w, u, g, x);
    assert Abs(u, g) == Abs(v, g);
    forall j | Inum(g, j) && j != x ensures u.tab[j] == v.tab[j] { assert w.tab[j] == v.tab[j]; }
  }

  /** `bad:` after a dir_link that was refused: the inode is given back. */
  method Undo(fs: Fs, x: nat)
    requires fs.Valid() && InUse(fs.vol, fs.g, x) && |fs.ref| == fs.g.ninodes && fs.ref[x] == 1
    requires fs.vol.tab[x].addrs == FreshInode(NONE).addrs
    modifies fs
    ensures fs.Valid() && fs.ref == old(fs.ref)[x := 0] && OthersKept(old(fs.vol), fs.vol, fs.g, x)
    ensures fs.dirty == old(fs.dirty) + {InodeBlockNo(fs.g, x)} && FilesKept(old(fs.vol), fs.vol, fs.g, {x})
    ensures x < |fs.vol.tab| && fs.vol.tab[x].typ == NONE && (FieldOk(old(fs.vol).tab[x]) ==> FieldOk(fs.vol.tab[x]))
    ensures Follows(fs.g, old(fs.Disk()), fs.Disk())
  {
    hide Owned, Settled, Contents, FreeBits, Follows, ReleaseSet, FilesKept;
    ghost var v := fs.vol;
    OwnedSizes(fs.Now(), fs.g);
    FreshRelease(Nlinked(v, x, 0), fs.g, x);
    NlinkKeeps(fs.vol, fs.g, fs.book, x, 0);
    AbsNlinked(fs.vol, fs.g, fs.book, x, 0);
    fs.vol := Nlinked(fs.vol, x, 0);
    ghost var w := fs.vol;
    InodePut(fs, x, true);
    OthersKeptTrans(v, w, fs.vol, fs.g, x);
    FilesKeptOthers(v, fs.vol, fs.g, x);
  }

  /** An inode without blocks costs its own slot alone. */
  lemma FreshRelease(v: Vol, g: Geo, x: nat)
    requires Shape(v, g) && Inum(g, x) && v.tab[x].addrs == FreshInode(NONE).addrs
    ensures ReleaseSet(v, g, x) == {InodeBlockNo(g, x)}
  {
    hide Blocks.Word;
    assert forall pos :: 0 <= pos <= INDIRECT ==> Addr(v, g, x, pos) == 0;
    hide Addr;
  }

  /** What create_file answers: nothing without a parent directory or a valid
      name; an existing plain file if that is what is wanted; otherwise a new
      entry, unless the directory is full. */
  ghost predicate CreateAnswer(v: Vol, w: Vol, g: Geo, start: nat, cs: seq<Name>, typ: InodeType, r: Call)
    requires World(v, g) && World(w, g)
  {
    var t := Abs(v, g);
    var d := WalkParent(t, start, cs);
    if d == 0 || d >= |t| || cs == [] || !ValidName(cs[|cs| - 1]) then r == Null
    else AnswerAt(v, w, g, d, cs[|cs| - 1], typ, r)
  }

  /** The answer once the directory and the name are known. */
  ghost predicate AnswerAt(v: Vol, w: Vol, g: Geo, d: nat, name: Name, typ: InodeType, r: Call)
    requires World(v, g) && World(w, g) && d < |Abs(v, g)|
  {
    var t := Abs(v, g);
    var x := Resolve(t[d].slots, name);
    if x != 0 then Abs(w, g) == t && r == if x < |t| && t[x].typ == typ == FILE then Found(x) else Null
    else if Full(t[d].slots) then r == Null
    else r.Found? && Created(v, w, g, d, name, r.inum, typ)
  }

  lemma {:induction false} ParentIsDir(t: Tree.Nodes, start: nat, cs: seq<Name>)
    ensures var d := WalkParent(t, start, cs); d != 0 ==> d < |t| && t[d].typ == DIRECTORY
    decreases |cs|
  {
    if |cs| > 1 && start < |t| { ParentIsDir(t, Resolve(t[start].slots, cs[0]), cs[1..]); }
  }

  /** Making an entry does not lead the walk to its directory elsewhere. */
  lemma {:induction false} ParentStays(t: Tree.Nodes, d: nat, name: Name, x: nat, typ: InodeType, at: nat, cs: seq<Name>)
    requires d < |t| && 0 < x < |t| && t[x].typ == NONE && t[d].typ == DIRECTORY && Resolve(t[d].slots, name) == 0
    requires WalkParent(t, at, cs) != 0
    ensures WalkParent(Tree.Create(t, d, name, x, typ), at, cs) == WalkParent(t, at, cs)
    decreases |cs|
  {
    hide Resolve, Linked;
    var u := Tree.Create(t, d, name, x, typ);
    assert at != x && u[at].typ == DIRECTORY;
    if |cs| > 1 {
      var c := Resolve(t[at].slots, cs[0]);
      if at == d { ResolveLinked(t[d].slots, Slot(x, name), cs[0]); }
      ParentStays(t, d, name, x, typ, c, cs[1..]);
    }
  }

  /** The path leads to `x`, of type `typ`: it did before and nothing has changed, or `x`
      is the new entry in the directory that the rest of the path leads to, and every
      other inode is as before. */
  ghost predicate PathMade(t: Tree.Nodes, u: Tree.Nodes, start: nat, cs: seq<Name>, typ: InodeType, x: nat) {
    && |u| == |t| && 0 < x < |u| && Walk(u, start, cs) == x && u[x].typ == typ && cs != []
    && if Walk(t, start, cs) != 0 then u == t && typ == FILE
       else
         var d := WalkParent(t, start, cs);
         && 0 < d < |t| && d != x && t[x].typ == NONE && u[x].nlink == 1
         && u[x].slots == (if typ == DIRECTORY then Tree.Dots(x, d) else [])
         && u[d] == t[d].(slots := Linked(t[d].slots, Slot(x, cs[|cs| - 1])), nlink := t[d].nlink + if typ == DIRECTORY then 1 else 0)
         && forall i :: 0 <= i < |t| && i != d && i != x ==> u[i] == t[i]
  }

  lemma AnswerIsPath(v: Vol, w: Vol, g: Geo, start: nat, cs: seq<Name>, typ: InodeType, c: Call)
    requires World(v, g) && World(w, g) && CreateAnswer(v, w, g, start, cs, typ, c) && c.Found? && start > 0
    ensures PathMade(Abs(v, g), Abs(w, g), start, cs, typ, c.inum)
  {
    hide Tree.Ok, DirSizes, FieldsOk, Resolve, Linked, FirstFree, ValidName, Walk, WalkParent, Abs;
    var t, u := Abs(v, g), Abs(w, g);
    var (d, name) := (WalkParent(t, start, cs), cs[|cs| - 1]);
    ParentIsDir(t, start, cs);
    WalkLast(t, start, cs);
    if Resolve(t[d].slots, name) != 0 {
      ZeroNone(t, c.inum);
    } else {
      NewPath(t, d, name, c.inum, typ, start, cs);
    }
  }

  lemma ZeroNone(t: Tree.Nodes, x: nat)
    requires x < |t| && t[x].typ == FILE && Tree.Ok(t)
    ensures x > 0
  {
    Tree.ZeroFree(t);
  }

  lemma NewPath(t: Tree.Nodes, d: nat, name: Name, x: nat, typ: InodeType, start: nat, cs: seq<Name>)
    requires Tree.CanCreate(t, d, name, x, typ) && cs != [] && cs[|cs| - 1] == name && WalkParent(t, start, cs) == d && start > 0
    ensures PathMade(t, Tree.Create(t, d, name, x, typ), start, cs, typ, x)
  {
    hide Resolve, Linked, Walk, WalkParent;
    var u := Tree.Create(t, d, name, x, typ);
    ParentStays(t, d, name, x, typ, start, cs);
    WalkLast(t, start, cs);
    WalkLast(u, start, cs);
    ResolveLinked(t[d].slots, Slot(x, name), name);
  }

  lemma StillAlive(v: Vol, w: Vol, g: Geo, d: nat, name: Name, x: nat, typ: InodeType)
    requires Created(v, w, g, d, name, x, typ)
    ensures Alive(w, g, d)
  {
    hide Contents, Slots, Tree.Ok, Linked;
    assert Abs(w, g)[d] == NodeOf(w, g, d);
  }

  lemma SameAlive(v: Vol, w: Vol, g: Geo, d: nat)
    requires World(v, g) && World(w, g) && Abs(w, g) == Abs(v, g) && Alive(v, g, d)
    ensures Alive(w, g, d)
  {
    hide Contents, Slots, Tree.Ok;
    assert Abs(w, g)[d] == NodeOf(w, g, d) && Abs(v, g)[d] == NodeOf(v, g, d);
  }

  /** The end of create_file: make the entry and give up the directory. */
  method CreateHere(fs: Fs, d: nat, name: Name, typ: InodeType, stack: seq<byte>, ghost ref0: seq<nat>) returns (r: Call)
    requires fs.Valid() && World(fs.vol, fs.g) && FreeUnused(fs.vol, fs.g, fs.ref) && fs.g.ninodes <= 0x1_0000_0000
    requires Tree.LinkedDir(Abs(fs.vol, fs.g), d) && Resolve(Abs(fs.vol, fs.g)[d].slots, name) == 0
    requires ValidName(name) && |name| < NAME_LEN && typ in {FILE, DIRECTORY} && |stack| == DIRENT
    requires fs.ref == Plus(ref0, d) && Alive(fs.vol, fs.g, d)
    modifies fs
    ensures !r.Halted? ==> fs.Valid() && World(fs.vol, fs.g)
    ensures r.Found? ==> Created(old(fs.vol), fs.vol, fs.g, d, name, r.inum, typ) && fs.ref == Plus(ref0, r.inum)
    ensures r.Null? ==> Abs(fs.vol, fs.g) == Abs(old(fs.vol), fs.g) && fs.ref == ref0
    ensures !r.Halted? ==> (r.Null? <==> Full(old(Abs(fs.vol, fs.g)[d].slots)))
    ensures !r.Halted? ==> |fs.dirty - old(fs.dirty)| <= 9
    ensures r.Halted? <==> Starved(old(fs.vol), fs.g, d, typ)
    ensures !r.Halted? ==> FilesKept(old(fs.vol), fs.vol, fs.g, {})
    ensures Follows(fs.g, old(fs.Disk()), fs.Disk())
  {
    hide Owned, Settled, Contents, Abs, Resolve, Tree.Ok, DirSizes, FieldsOk, ValidName, FirstFree, Tree.Create, Follows, Starved, FilesKept;
    ghost var v := fs.vol;
    r := CreateIn(fs, d, name, typ, stack);
    match r
    case Found(x) =>
      StillAlive(v, fs.vol, fs.g, d, name, x, typ);
      PlusSwaps(ref0, d, x);
      PutLinked(fs, d, Plus(ref0, x));
    case Null =>
      SameAlive(v, fs.vol, fs.g, d);
      PutLinked(fs, d, ref0);
    case Halted =>
  }

  /** create_file of a name that exists. */
  method TakeExisting(fs: Fs, d: nat, ip: nat, typ: InodeType, ghost ref0: seq<nat>) returns (r: Call)
    requires fs.Valid() && Alive(fs.vol, fs.g, d) && Alive(fs.vol, fs.g, ip)
    requires |ref0| == fs.g.ninodes && fs.ref == Plus(Plus(ref0, d), ip)
    modifies fs
    ensures fs.Valid() && fs.Now() == old(fs.Now())
    ensures r == if fs.vol.tab[ip].typ == typ == FILE then Found(ip) else Null
    ensures fs.ref == if r.Found? then Plus(ref0, ip) else ref0
  {
    hide Owned, Settled;
    PlusSwaps(ref0, d, ip);
    if fs.vol.tab[ip].typ == typ && typ == FILE {
      PutLinked(fs, d, Plus(ref0, ip));
      return Found(ip);
    }
    PutLinked(fs, ip, Plus(ref0, d));
    PutLinked(fs, d, ref0);
    return Null;
  }

  /** create_file in directory `d`, on which it holds a reference. */
  method CreateAt(fs: Fs, d: nat, name: Name, typ: InodeType, stack: seq<byte>, ghost ref0: seq<nat>) returns (r: Call)
    requires fs.Valid() && World(fs.vol, fs.g) && FreeUnused(fs.vol, fs.g, fs.ref) && fs.g.ninodes <= 0x1_0000_0000
    requires Alive(fs.vol, fs.g, d) && fs.vol.tab[d].typ == DIRECTORY && fs.ref == Plus(ref0, d)
    requires ValidName(name) && |name| < NAME_LEN && typ in {FILE, DIRECTORY} && |stack| == DIRENT
    modifies fs
    ensures !r.Halted? ==> fs.Valid() && World(fs.vol, fs.g)
    ensures r.Null? ==> Abs(fs.vol, fs.g) == Abs(old(fs.vol), fs.g)
    ensures !r.Halted? ==> fs.ref == if r.Found? then Plus(ref0, r.inum) else ref0
    ensures !r.Halted? ==> d < |Abs(old(fs.vol), fs.g)| && AnswerAt(old(fs.vol), fs.vol, fs.g, d, name, typ, r)
    ensures !r.Halted? ==> |fs.dirty - old(fs.dirty)| <= 9
    ensures d < |Abs(old(fs.vol), fs.g)| && (r.Halted? <==> Resolve(Abs(old(fs.vol), fs.g)[d].slots, name) == 0 && Starved(old(fs.vol), fs.g, d, typ))
    ensures !r.Halted? ==> FilesKept(old(fs.vol), fs.vol, fs.g, {})
    ensures Follows(fs.g, old(fs.Disk()), fs.Disk())
  {
    hide Owned, Settled, Contents, Abs, Resolve, Tree.Ok, IsDir, Created, DirSizes, FieldsOk, ValidName, FirstFree, Follows, Starved, FilesKept;
    ghost var v, g := fs.vol, fs.g;
    FilesKeptRefl(v, g);
    FollowsRefl(g, fs.Disk());
    AliveDir(v, g, d);
    WorldDir(v, g, d);
    NamesInTable(v, g, SlotsOf(v, g, d));
    assert fs.dirty - old(fs.dirty) == {};
    var k, ip := DirLookup(fs, d, name);
    if ip != 0 {
      assert Live(SlotsOf(v, g, d)[k]);
      AliveDir(v, g, ip);
      r := TakeExisting(fs, d, ip, typ, ref0);
    } else {
      r := CreateHere(fs, d, name, typ, stack, ref0);
    }
  }

  /** Exactly when create_file does not return: the walk goes astray, or an entry is to
      be made and inodes or blocks run out. */
  ghost predicate CreateHalts(v: Vol, g: Geo, start: nat, cs: seq<Name>, typ: InodeType)
    requires Shape(v, g)
  {
    var t := Abs(v, g);
    var d := WalkParent(t, start, cs);
    || Strays(t, start, cs)
    || (&& 0 < d < |t| && cs != [] && ValidName(cs[|cs| - 1])
        && Resolve(t[d].slots, cs[|cs| - 1]) == 0 && Starved(v, g, d, typ))
  }

  /** The directory in which `path` would make its last component has not been removed
      (see Tree.CreateInRemovedDirectory). */
  ghost predicate ParentLinked(v: Vol, g: Geo, cwd: nat, path: Path) {
    Shape(v, g) && !Tree.RemovedDir(Abs(v, g), WalkParent(Abs(v, g), Start(path, cwd), Comps(path)))
  }

  /** create_file.  A refusal leaves the tree and all references as they were; a
      plain file that exists is returned as it is; otherwise the first free inode
      becomes the new entry.  If the walk goes astray an assertion fails. */
  method CreateFile(fs: Fs, cwd: nat, path: Path, typ: InodeType, stack: seq<byte>) returns (r: Call)
    requires fs.Valid() && World(fs.vol, fs.g) && FreeUnused(fs.vol, fs.g, fs.ref) && fs.g.ninodes <= 0x1_0000_0000
    requires Startable(fs.vol, fs.g, fs.ref, path, cwd) && ParentLinked(fs.vol, fs.g, cwd, path)
    requires ShortNames(Comps(path)) && typ in {FILE, DIRECTORY} && |stack| == DIRENT
    modifies fs
    ensures !r.Halted? ==> fs.Valid() && World(fs.vol, fs.g)
    ensures r.Null? ==> Abs(fs.vol, fs.g) == Abs(old(fs.vol), fs.g) && fs.ref == old(fs.ref)
    ensures r.Found? ==> fs.ref == Plus(old(fs.ref), r.inum)
    ensures !r.Halted? ==> FreeUnused(fs.vol, fs.g, fs.ref)
    ensures !r.Halted? && Referenced(old(fs.vol), fs.g, old(fs.ref)) ==> Referenced(fs.vol, fs.g, fs.ref)
    ensures !r.Halted? ==> CreateAnswer(old(fs.vol), fs.vol, fs.g, Start(path, cwd), Comps(path), typ, r)
    ensures r.Halted? <==> CreateHalts(old(fs.vol), fs.g, Start(path, cwd), Comps(path), typ)
    ensures !r.Halted? ==> |fs.dirty - old(fs.dirty)| <= 9
    ensures !r.Halted? ==> FilesKept(old(fs.vol), fs.vol, fs.g, {})
    ensures Follows(fs.g, old(fs.Disk()), fs.Disk())
  {
    hide Owned, Settled, Contents, Abs, Tree.Ok, AnswerAt, Comps, WalkParent, DirSizes, FieldsOk, ValidName, Follows, Strays, Startable, Referenced, Starved, Resolve, FilesKept;
    FollowsRefl(fs.g, fs.Disk());
    FilesKeptRefl(fs.vol, fs.g);
    assert fs.dirty - old(fs.dirty) == {};
    ghost var v, g := fs.vol, fs.g;
    var d, name, ok := PathLookup0(fs, cwd, path, true);
    if !ok { return Halted; }
    if d == 0 { return Null; }
    ParentIsDir(Abs(v, g), Start(path, cwd), Comps(path));
    ParentAlive(v, g, d);
    var valid := PathValidName(name);
    if !valid {
      PutLinked(fs, d, old(fs.ref));
      return Null;
    }
    r := CreateAt(fs, d, name, typ, stack, old(fs.ref));
    if !r.Halted? { AnswerTypes(v, fs.vol, g, d, name, typ, r, old(fs.ref)); }
  }

  lemma ParentAlive(v: Vol, g: Geo, d: nat)
    requires World(v, g) && 0 < d < |Abs(v, g)| && Abs(v, g)[d].typ == DIRECTORY && !Tree.RemovedDir(Abs(v, g), d)
    ensures Alive(v, g, d) && v.tab[d].typ == DIRECTORY
  {
    hide Tree.Ok, Contents;
    NodeType(v, g, d);
  }

  /** Free inodes still have no references, and unlinked ones in use still have. */
  lemma AnswerTypes(v: Vol, w: Vol, g: Geo, d: nat, name: Name, typ: InodeType, r: Call, ref: seq<nat>)
    requires World(v, g) && World(w, g) && d < |Abs(v, g)| && AnswerAt(v, w, g, d, name, typ, r) && FreeUnused(v, g, ref)
    requires (r.Null? ==> Abs(w, g) == Abs(v, g)) && typ != NONE && !r.Halted?
    ensures FreeUnused(w, g, if r.Found? then Plus(ref, r.inum) else ref)
    ensures Referenced(v, g, ref) ==> Referenced(w, g, if r.Found? then Plus(ref, r.inum) else ref)
  {
    hide Tree.Ok, Contents, Resolve, FirstFree, Created;
    if r.Found? {
      if Resolve(Abs(v, g)[d].slots, name) != 0 {
        NodeType(v, g, r.inum);
        SameTypes(v, w, g);
      } else {
        CreatedTypes(v, w, g, d, name, r.inum, typ);
      }
    } else {
      SameTypes(v, w, g);
    }
  }

  lemma CreatedTypes(v: Vol, w: Vol, g: Geo, d: nat, name: Name, x: nat, typ: InodeType)
    requires Created(v, w, g, d, name, x, typ)
    ensures |w.tab| == |v.tab| && forall j :: 0 <= j < |v.tab| ==> w.tab[j].typ == if j == x then typ else v.tab[j].typ
    ensures forall j :: 0 <= j < |v.tab| ==> if j == x then w.tab[j].nlink == 1 else w.tab[j].nlink >= v.tab[j].nlink
  {
    hide Tree.Ok, Contents, Linked;
    forall j | 0 <= j < |v.tab|
      ensures w.tab[j].typ == if j == x then typ else v.tab[j].typ
      ensures if j == x then w.tab[j].nlink == 1 else w.tab[j].nlink >= v.tab[j].nlink
    {
      NodeType(v, g, j);
      NodeType(w, g, j);
    }
  }

  lemma SameTypes(v: Vol, w: Vol, g: Geo)
    requires World(v, g) && World(w, g) && Abs(w, g) == Abs(v, g)
    ensures |w.tab| == |v.tab| && forall j :: 0 <= j < |v.tab| ==> w.tab[j].typ == v.tab[j].typ && w.tab[j].nlink == v.tab[j].nlink
  {
    hide Tree.Ok, Contents;
    forall j | 0 <= j < |v.tab| ensures w.tab[j].typ == v.tab[j].typ && w.tab[j].nlink == v.tab[j].nlink {
      NodeType(v, g, j);
      NodeType(w, g, j);
    }
  }

  // ------------------------------------------------------------------
  // sys_unlink
  // ------------------------------------------------------------------

  /** The tree after the entry is gone and the last reference, if it was that, has
      been dropped. */
  function Removed(t: Tree.Nodes, d: nat, k: nat, last: bool): Tree.Nodes
    requires Tree.CanUnlink(t, d, k)
  {
    var (u, x) := (Tree.Unlink(t, d, k), t[d].slots[k].inum);
    if last && u[x].nlink == 0 then Tree.Release(u, x) else u
  }

  predicate Gone(t: Tree.Nodes, u: Tree.Nodes, d: nat, k: nat, ref: seq<nat>) {
    && Tree.CanUnlink(t, d, k) && t[d].slots[k].inum < |ref|
    && u == Removed(t, d, k, ref[t[d].slots[k].inum] == 0)
  }

  /** What sys_unlink answers.  For "." and ".." it returns without giving back the
      reference to the parent. */
  ghost predicate UnlinkAnswer(v: Vol, w: Vol, g: Geo, start: nat, cs: seq<Name>, ref: seq<nat>, ref': seq<nat>, r: int)
    requires World(v, g) && World(w, g) && |ref| == g.ninodes
  {
    var t := Abs(v, g);
    var d := WalkParent(t, start, cs);
    if d == 0 || d >= |t| || cs == [] then r == -1 && w == v && ref' == ref
    else
      var name := cs[|cs| - 1];
      if name == DOT || name == DOTDOT then r == -1 && w == v && ref' == Plus(ref, d)
      else
        var k := Find(t[d].slots, name);
        ref' == ref && if Tree.CanUnlink(t, d, k) then r == 0 && Gone(t, Abs(w, g), d, k, ref) else r == -1 && w == v
  }

  /** The tree before the inode itself loses its link. */
  function HalfUnlinked(t: Tree.Nodes, d: nat, k: nat): Tree.Nodes
    requires d < |t| && k < |t[d].slots| && t[d].slots[k].inum < |t|
  {
    var t1 := t[d := t[d].(slots := Unlinked(t[d].slots, k))];
    if t[t[d].slots[k].inum].typ == DIRECTORY then t1[d := t1[d].(nlink := Tree.Drop(t1[d].nlink))] else t1
  }

  /** The writes of sys_unlink make up one Unlink. */
  lemma UnlinkedTree(t: Tree.Nodes, d: nat, k: nat)
    requires Tree.Ok(t) && Tree.CanUnlink(t, d, k)
    ensures var x := t[d].slots[k].inum;
            && x != d && x < |t| && t[x].nlink >= 1 && (t[x].typ == DIRECTORY ==> t[d].nlink >= 2)
            && Tree.Unlink(t, d, k) == HalfUnlinked(t, d, k)[x := HalfUnlinked(t, d, k)[x].(nlink := t[x].nlink - 1)]
  {
    hide Tree.Ok;
    Tree.UnlinkFacts(t, d, k);
    if t[t[d].slots[k].inum].typ == DIRECTORY { Tree.ParentKeepsLink(t, d, k); }
  }

  /** Directories keep their sizes under a rewrite or a new link count. */
  ghost predicate Sized(v: Vol, g: Geo) {
    Shape(v, g) && DirSizes(v, g)
  }

  lemma SizedRewritten(v: Vol, w: Vol, g: Geo, d: nat, s: seq<Slot>)
    requires Sized(v, g) && FieldsOk(v) && Rewritten(v, w, g, d, s)
    ensures Sized(w, g) && FieldsOk(w) && OthersKept(v, w, g, d)
    ensures forall j :: Inum(g, j) && j != d ==> w.tab[j] == v.tab[j]
    ensures w.tab[d].nlink == v.tab[d].nlink && w.tab[d].typ == v.tab[d].typ
  {
    hide Contents, Slots;
  }

  lemma SizedNlinked(v: Vol, g: Geo, i: nat, n: nat)
    requires Sized(v, g) && FieldsOk(v) && InUse(v, g, i)
    ensures Sized(Nlinked(v, i, n), g) && FieldsOk(Nlinked(v, i, n))
  {
  }

  /** The blocks that removing entry `k` of `d` logs: the block of the entry, the inode
      `x` it names, the directory's inode if it loses a link, and what the release of
      `x` logs if that was its last link and nobody has it open. */
  ghost function UnlinkSet(v: Vol, g: Geo, d: nat, k: nat, x: nat, last: bool): set<nat>
    requires Shape(v, g) && Inum(g, d) && Inum(g, x) && k / 8 < MAX_BLOCKS
  {
    CutSet(v, g, d, k, x) + if last && v.tab[x].nlink == 1 then ReleaseSet(v, g, x) else {}
  }

  ghost function CutSet(v: Vol, g: Geo, d: nat, k: nat, x: nat): set<nat>
    requires Shape(v, g) && Inum(g, d) && Inum(g, x) && k / 8 < MAX_BLOCKS
  {
    {Addr(v, g, d, k / 8), InodeBlockNo(g, x)} + if v.tab[x].typ == DIRECTORY then {InodeBlockNo(g, d)} else {}
  }

  lemma ReleaseSame(v: Vol, w: Vol, g: Geo, x: nat)
    requires Shape(v, g) && Shape(w, g) && Inum(g, x) && w.tab[x].addrs == v.tab[x].addrs
    requires forall pos :: 0 <= pos <= INDIRECT ==> Addr(w, g, x, pos) == Addr(v, g, x, pos)
    ensures ReleaseSet(w, g, x) == ReleaseSet(v, g, x)
  {
    hide Addr, BmOf;
  }

  /** Another link count moves no block. */
  lemma NlinkedRelease(v: Vol, g: Geo, i: nat, n: nat, x: nat)
    requires Shape(v, g) && Inum(g, i) && Inum(g, x)
    ensures ReleaseSet(Nlinked(v, i, n), g, x) == ReleaseSet(v, g, x)
  {
    hide Blocks.Word;
    var w := Nlinked(v, i, n);
    forall pos | 0 <= pos <= INDIRECT ensures Addr(w, g, x, pos) == Addr(v, g, x, pos) { AddrSame(v, w, g, x, pos); }
    ReleaseSame(v, w, g, x);
  }

  /** Nor does a store into a file block. */
  lemma OverwroteRelease(s: Snap, t: Snap, g: Geo, d: nat, lo: nat, bytes: seq<byte>, x: nat)
    requires Owned(s.v, g, s.k) && Settled(s.v, g, s.k) && InUse(s.v, g, d) && lo < s.v.tab[d].size
    requires Overwrote(s, t, g, d, lo, bytes) && InUse(s.v, g, x)
    ensures Shape(t.v, g) && ReleaseSet(t.v, g, x) == ReleaseSet(s.v, g, x)
  {
    hide Owned, Settled, Addr, Patch, ReleaseSet;
    BlockExists(s.v, g, s.k, d, lo);
    var a := Addr(s.v, g, d, lo / BLOCK_SIZE);
    MappedOwner(s, g, d, lo / BLOCK_SIZE, a);
    forall pos | 0 <= pos <= INDIRECT ensures Addr(t.v, g, x, pos) == Addr(s.v, g, x, pos) {
      StoreAddr(s.v, g, s.k, a - g.bd, Patch(s.v.data[a - g.bd], lo % BLOCK_SIZE, bytes), x, pos);
    }
    ReleaseSame(s.v, t.v, g, x);
  }

  lemma EntryBlock(v: Vol, g: Geo, d: nat, k: nat)
    requires IsDir(v, g, d) && k < |SlotsOf(v, g, d)|
    ensures k / 8 < MAX_BLOCKS && DIRENT * k < v.tab[d].size && DIRENT * k / BLOCK_SIZE == k / 8
  {
    hide Contents;
    SizeIs(v, g, d);
    SlotInBlock(k, v.tab[d].size);
  }

  /** dir_unlink of the entry, seen in the tree. */
  method ClearEntry(fs: Fs, d: nat, k: nat, ip: nat)
    requires fs.Valid() && World(fs.vol, fs.g) && Tree.CanUnlink(Abs(fs.vol, fs.g), d, k)
    requires ip == Abs(fs.vol, fs.g)[d].slots[k].inum
    modifies fs`vol, fs`slots, fs`dirty, fs`book
    ensures fs.Valid() && Sized(fs.vol, fs.g) && FieldsOk(fs.vol) && Shape(old(fs.vol), fs.g)
    ensures var t := Abs(old(fs.vol), fs.g); Abs(fs.vol, fs.g) == t[d := t[d].(slots := Unlinked(t[d].slots, k))]
    ensures ip != d && InUse(fs.vol, fs.g, ip) && InUse(fs.vol, fs.g, d) && InUse(old(fs.vol), fs.g, d)
    ensures fs.vol.tab[ip] == old(fs.vol).tab[ip] && fs.vol.tab[d].nlink == old(fs.vol).tab[d].nlink
    ensures k / 8 < MAX_BLOCKS && fs.dirty == old(fs.dirty) + {Addr(old(fs.vol), fs.g, d, k / 8)}
    ensures ReleaseSet(fs.vol, fs.g, ip) == ReleaseSet(old(fs.vol), fs.g, ip) && FilesKept(old(fs.vol), fs.vol, fs.g, {})
    ensures Follows(fs.g, old(fs.Disk()), fs.Disk())
  {
    hide Owned, Settled, Contents, Abs, OthersKept, Tree.Ok, IsDir, Rewritten, DirSizes, FieldsOk, Follows, ReleaseSet, Overwrote, Addr, FilesKept;
    ghost var v, g := fs.vol, fs.g;
    ghost var t := Abs(v, g);
    UnlinkedTree(t, d, k);
    EntryUse(t, d, k);
    NodeIs(v, g, d);
    NodeIs(v, g, ip);
    WorldDir(v, g, d);
    EntryBlock(v, g, d, k);
    DirUse(v, g, d);
    ghost var s0 := fs.Now();
    var o := DirUnlink(fs, d, k);
    OverwroteRelease(s0, fs.Now(), g, d, DIRENT * k, Zeros(), ip);
    OverwroteDirty(s0, fs.Now(), g, d, DIRENT * k, Zeros());
    ghost var s := Unlinked(t[d].slots, k);
    AbsRewritten(v, fs.vol, g, d, s);
    SizedRewritten(v, fs.vol, g, d, s);
    RewrittenFiles(v, fs.vol, g, d, s);
  }

  lemma EntryUse(t: Tree.Nodes, d: nat, k: nat)
    requires Tree.Ok(t) && Tree.CanUnlink(t, d, k)
    ensures t[t[d].slots[k].inum].typ != NONE
  {
    hide Tree.Ok;
    Tree.UnlinkFacts(t, d, k);
  }

  /** Removing entry `k` of `d`, up to the two inode_puts. */
  method Cut(fs: Fs, d: nat, k: nat, ip: nat)
    requires fs.Valid() && World(fs.vol, fs.g) && Tree.CanUnlink(Abs(fs.vol, fs.g), d, k)
    requires ip == Abs(fs.vol, fs.g)[d].slots[k].inum
    modifies fs`vol, fs`slots, fs`dirty, fs`book
    ensures fs.Valid() && World(fs.vol, fs.g) && Abs(fs.vol, fs.g) == Tree.Unlink(Abs(old(fs.vol), fs.g), d, k)
    ensures InUse(fs.vol, fs.g, ip) && Alive(fs.vol, fs.g, d)
    ensures k / 8 < MAX_BLOCKS && Inum(fs.g, d) && Shape(old(fs.vol), fs.g)
    ensures fs.dirty == old(fs.dirty) + CutSet(old(fs.vol), fs.g, d, k, ip)
    ensures ReleaseSet(fs.vol, fs.g, ip) == ReleaseSet(old(fs.vol), fs.g, ip) && FilesKept(old(fs.vol), fs.vol, fs.g, {})
    ensures Follows(fs.g, old(fs.Disk()), fs.Disk())
  {
    hide Owned, Settled, Contents, Abs, OthersKept, Tree.Ok, IsDir, DirSizes, FieldsOk, Tree.Unlink, Follows, ReleaseSet, Addr, Unlinked, HalfUnlinked, CutSet, FilesKept;
    ghost var v, g := fs.vol, fs.g;
    ghost var d0 := fs.Disk();
    ghost var t := Abs(v, g);
    UnlinkedTree(t, d, k);
    NodeIs(v, g, d);
    NodeIs(v, g, ip);
    CutParent(fs, d, k, ip);
    ghost var u := fs.vol;
    SizedNlinked(fs.vol, g, ip, fs.vol.tab[ip].nlink - 1);
    ghost var d2 := fs.Disk();
    NlinkedRelease(fs.vol, g, ip, fs.vol.tab[ip].nlink - 1, ip);
    SetNlink(fs, ip, fs.vol.tab[ip].nlink - 1);
    FilesKeptChain(v, u, fs.vol, g);
    FollowsTrans(g, d0, d2, fs.Disk());
    Tree.UnlinkKeeps(t, d, k);
  }

  /** The entry, and the directory's link if that names a directory. */
  method CutParent(fs: Fs, d: nat, k: nat, ip: nat)
    requires fs.Valid() && World(fs.vol, fs.g) && Tree.CanUnlink(Abs(fs.vol, fs.g), d, k)
    requires ip == Abs(fs.vol, fs.g)[d].slots[k].inum
    modifies fs`vol, fs`slots, fs`dirty, fs`book
    ensures fs.Valid() && Sized(fs.vol, fs.g) && FieldsOk(fs.vol) && Shape(old(fs.vol), fs.g)
    ensures Abs(fs.vol, fs.g) == HalfUnlinked(Abs(old(fs.vol), fs.g), d, k)
    ensures ip != d && InUse(fs.vol, fs.g, ip) && InUse(fs.vol, fs.g, d) && Inum(fs.g, d)
    ensures fs.vol.tab[ip] == old(fs.vol).tab[ip] && fs.vol.tab[d].nlink >= 1
    ensures k / 8 < MAX_BLOCKS && fs.dirty + {InodeBlockNo(fs.g, ip)} == old(fs.dirty) + CutSet(old(fs.vol), fs.g, d, k, ip)
    ensures ReleaseSet(fs.vol, fs.g, ip) == ReleaseSet(old(fs.vol), fs.g, ip) && FilesKept(old(fs.vol), fs.vol, fs.g, {})
    ensures Follows(fs.g, old(fs.Disk()), fs.Disk())
  {
    hide Owned, Settled, Contents, Abs, OthersKept, Tree.Ok, IsDir, DirSizes, FieldsOk, Tree.Unlink, Follows, ReleaseSet, Addr, Unlinked, FilesKept;
    ghost var v, g := fs.vol, fs.g;
    ghost var d0 := fs.Disk();
    ghost var t := Abs(v, g);
    UnlinkedTree(t, d, k);
    NodeIs(v, g, d);
    NodeIs(v, g, ip);
    ClearEntry(fs, d, k, ip);
    if fs.vol.tab[ip].typ == DIRECTORY {
      SizedNlinked(fs.vol, g, d, fs.vol.tab[d].nlink - 1);
      ghost var d1 := fs.Disk();
      NlinkedRelease(fs.vol, g, d, fs.vol.tab[d].nlink - 1, ip);
      ghost var u := fs.vol;
      SetNlink(fs, d, fs.vol.tab[d].nlink - 1);
      FilesKeptChain(v, u, fs.vol, g);
      FollowsTrans(g, d0, d1, fs.Disk());
    }
  }

  lemma DirUse(v: Vol, g: Geo, d: nat)
    requires IsDir(v, g, d)
    ensures Shape(v, g) && InUse(v, g, d) && v.tab[d].typ == DIRECTORY
  {
  }

  lemma OverwroteDirty(s: Snap, t: Snap, g: Geo, i: nat, lo: nat, bytes: seq<byte>)
    requires Overwrote(s, t, g, i, lo, bytes)
    ensures lo / BLOCK_SIZE < MAX_BLOCKS && t.dirty == s.dirty + {Addr(s.v, g, i, lo / BLOCK_SIZE)}
  {
    hide Addr;
  }

  lemma NodeIs(v: Vol, g: Geo, i: nat)
    requires Shape(v, g) && i < |Abs(v, g)|
    ensures i < |v.tab| && Inum(g, i) && Abs(v, g)[i].typ == v.tab[i].typ && Abs(v, g)[i].nlink == v.tab[i].nlink
  {
    hide Contents;
    assert Abs(v, g)[i] == NodeOf(v, g, i);
  }

  /** inode_put of the inode that lost its entry. */
  method PutUnlinked(fs: Fs, x: nat, valid: bool)
    requires fs.Valid() && World(fs.vol, fs.g) && InUse(fs.vol, fs.g, x) && x != 0 && |fs.ref| == fs.g.ninodes && fs.ref[x] >= 1
    modifies fs
    ensures fs.Valid() && World(fs.vol, fs.g) && fs.ref == old(fs.ref)[x := old(fs.ref)[x] - 1]
    ensures var t := Abs(old(fs.vol), fs.g);
            x < |t| && Abs(fs.vol, fs.g) == if Last(old(fs.vol).tab[x], valid, old(fs.ref)[x]) then Tree.Release(t, x) else t
    ensures fs.dirty == old(fs.dirty) + if Last(old(fs.vol).tab[x], valid, old(fs.ref)[x]) then ReleaseSet(old(fs.vol), fs.g, x) else {}
    ensures forall j :: Alive(old(fs.vol), fs.g, j) ==> Alive(fs.vol, fs.g, j)
    ensures FilesKept(old(fs.vol), fs.vol, fs.g, if Last(old(fs.vol).tab[x], valid, old(fs.ref)[x]) then {x} else {})
    ensures Last(old(fs.vol).tab[x], valid, old(fs.ref)[x]) ==> !InUse(fs.vol, fs.g, x)
    ensures Follows(fs.g, old(fs.Disk()), fs.Disk())
  {
    hide Owned, Settled, Contents, Abs, Tree.Ok, FreeBits, DirSizes, FieldsOk, Follows, ReleaseSet, FilesKept;
    ghost var v, g := fs.vol, fs.g;
    FilesKeptRefl(v, g);
    NodeIs(v, g, x);
    InodePut(fs, x, valid);
    if Last(v.tab[x], valid, old(fs.ref)[x]) {
      ReleasedWorld(v, fs.vol, g, x);
      FilesKeptOthers(v, fs.vol, g, x);
    }
  }

  /** Every plain file that is still in use holds what it did. */
  ghost predicate OpenFilesKept(v: Vol, w: Vol, g: Geo) {
    exists gone :: FilesKept(v, w, g, gone) && forall j :: j in gone ==> !InUse(w, g, j)
  }

  lemma ReleasedWorld(v: Vol, w: Vol, g: Geo, x: nat)
    requires World(v, g) && OthersKept(v, w, g, x) && InUse(v, g, x) && x != 0 && v.tab[x].nlink == 0
    requires !InUse(w, g, x) && w.tab[x] == v.tab[x].(typ := NONE, size := 0, addrs := w.tab[x].addrs)
    ensures World(w, g) && x < |Abs(v, g)| && Abs(w, g) == Tree.Release(Abs(v, g), x)
    ensures forall j :: Alive(v, g, j) ==> Alive(w, g, j)
  {
    hide Contents, Slots, Tree.Ok;
    NodeIs(v, g, x);
    AbsOthers(v, w, g, x);
    Tree.ReleaseKeeps(Abs(v, g), x);
  }

  lemma UnlinkDrops(t: Tree.Nodes, d: nat, k: nat)
    requires Tree.Ok(t) && Tree.CanUnlink(t, d, k)
    ensures var x := t[d].slots[k].inum; Tree.Unlink(t, d, k)[x].nlink == t[x].nlink - 1
  {
    hide Tree.Ok;
    Tree.UnlinkFacts(t, d, k);
  }

  lemma IsGone(t: Tree.Nodes, u: Tree.Nodes, d: nat, k: nat, x: nat, ref: seq<nat>)
    requires Tree.CanUnlink(t, d, k) && x == t[d].slots[k].inum && x < |ref|
    requires var t2 := Tree.Unlink(t, d, k); u == if ref[x] == 0 && t2[x].nlink == 0 then Tree.Release(t2, x) else t2
    ensures Gone(t, u, d, k, ref)
  {
    hide Tree.Unlink, Tree.Release;
  }

  /** The entry goes, and both references. */
  method UnlinkNow(fs: Fs, d: nat, k: nat, ip: nat, ghost ref0: seq<nat>)
    requires fs.Valid() && World(fs.vol, fs.g) && |ref0| == fs.g.ninodes
    requires Tree.CanUnlink(Abs(fs.vol, fs.g), d, k) && Alive(fs.vol, fs.g, d) && Alive(fs.vol, fs.g, ip)
    requires ip == Abs(fs.vol, fs.g)[d].slots[k].inum && fs.ref == Plus(Plus(ref0, d), ip)
    modifies fs
    ensures fs.Valid() && World(fs.vol, fs.g) && fs.ref == ref0 && ip < |ref0|
    ensures Gone(Abs(old(fs.vol), fs.g), Abs(fs.vol, fs.g), d, k, ref0)
    ensures k / 8 < MAX_BLOCKS && fs.dirty == old(fs.dirty) + UnlinkSet(old(fs.vol), fs.g, d, k, ip, ref0[ip] == 0)
    ensures OpenFilesKept(old(fs.vol), fs.vol, fs.g)
    ensures Follows(fs.g, old(fs.Disk()), fs.Disk())
  {
    hide Owned, Settled, Contents, Abs, Tree.Ok, DirSizes, FieldsOk, Tree.Unlink, Tree.Release, Gone, Follows, ReleaseSet, CutSet, Tree.CanUnlink, Shape, FilesKept;
    ghost var v, g := fs.vol, fs.g;
    ghost var d0 := fs.Disk();
    UnlinkedTree(Abs(v, g), d, k);
    NodeIs(v, g, ip);
    UnlinkDrops(Abs(v, g), d, k);
    Cut(fs, d, k, ip);
    NodeIs(fs.vol, g, ip);
    ghost var (u, d1) := (fs.vol, fs.Disk());
    ghost var gone := if Last(u.tab[ip], true, fs.ref[ip]) then {ip} else {};
    PutUnlinked(fs, ip, true);
    FilesKeptTrans(v, u, fs.vol, g, {}, gone);
    assert forall j :: j in {} + gone ==> !InUse(fs.vol, g, j);
    FollowsTrans(g, d0, d1, fs.Disk());
    assert fs.ref == Plus(ref0, d);
    IsGone(Abs(v, g), Abs(fs.vol, g), d, k, ip, ref0);
    PutLinked(fs, d, ref0);
  }

  /** sys_unlink from where the entry has been found. */
  method UnlinkHere(fs: Fs, d: nat, k: nat, ip: nat, ghost ref0: seq<nat>) returns (r: int)
    requires fs.Valid() && World(fs.vol, fs.g) && |ref0| == fs.g.ninodes
    requires Tree.LinkedDir(Abs(fs.vol, fs.g), d) && Alive(fs.vol, fs.g, d) && Alive(fs.vol, fs.g, ip)
    requires k < |Abs(fs.vol, fs.g)[d].slots| && Live(Abs(fs.vol, fs.g)[d].slots[k])
    requires Abs(fs.vol, fs.g)[d].slots[k].name !in {DOT, DOTDOT} && ip == Abs(fs.vol, fs.g)[d].slots[k].inum
    requires fs.ref == Plus(Plus(ref0, d), ip)
    modifies fs
    ensures fs.Valid() && World(fs.vol, fs.g) && fs.ref == ref0 && ip < |ref0|
    ensures var t := Abs(old(fs.vol), fs.g);
            if Tree.CanUnlink(t, d, k) then r == 0 && Gone(t, Abs(fs.vol, fs.g), d, k, ref0)
            else r == -1 && fs.vol == old(fs.vol) && fs.dirty == old(fs.dirty)
    ensures r == 0 ==> k / 8 < MAX_BLOCKS && fs.dirty == old(fs.dirty) + UnlinkSet(old(fs.vol), fs.g, d, k, ip, ref0[ip] == 0)
    ensures OpenFilesKept(old(fs.vol), fs.vol, fs.g)
    ensures Follows(fs.g, old(fs.Disk()), fs.Disk())
  {
    hide Owned, Settled, Contents, Abs, Tree.Ok, IsDir, DirSizes, FieldsOk, Tree.Unlink, Tree.Release, Gone, Follows, UnlinkSet, FilesKept, OpenFilesKept;
    ghost var v, g := fs.vol, fs.g;
    AllKept(v, g);
    FollowsRefl(g, fs.Disk());
    AliveDir(v, g, ip);
    if fs.vol.tab[ip].typ == DIRECTORY {
      WorldDir(v, g, ip);
      var empty := DirIsEmpty(fs, ip);
      if !empty {
        PutLinked(fs, ip, Plus(ref0, d));
        PutLinked(fs, d, ref0);
        return -1;
      }
    }
    UnlinkNow(fs, d, k, ip, ref0);
    r := 0;
  }

  lemma AllKept(v: Vol, g: Geo)
    requires Shape(v, g)
    ensures OpenFilesKept(v, v, g)
  {
    hide FilesKept;
    FilesKeptRefl(v, g);
  }

  /** What sys_unlink has logged: nothing if it fails. */
  ghost predicate UnlinkLogged(v: Vol, g: Geo, start: nat, cs: seq<Name>, ref: seq<nat>, r: int, before: set<nat>, after: set<nat>)
    requires World(v, g) && |ref| == g.ninodes
  {
    var t := Abs(v, g);
    var d := WalkParent(t, start, cs);
    if r != 0 then after == before
    else
      && cs != [] && d < |t|
      && var k := Find(t[d].slots, cs[|cs| - 1]);
         && k < |t[d].slots| && k / 8 < MAX_BLOCKS && t[d].slots[k].inum < g.ninodes
         && after == before + UnlinkSet(v, g, d, k, t[d].slots[k].inum, ref[t[d].slots[k].inum] == 0)
  }

  /** A removed directory has nothing that could be unlinked. */
  lemma NothingToUnlink(t: Tree.Nodes, d: nat, name: Name)
    requires Tree.Ok(t) && Tree.RemovedDir(t, d) && name != DOT && name != DOTDOT
    ensures Find(t[d].slots, name) == |t[d].slots| && Resolve(t[d].slots, name) == 0
  {
    hide Tree.Law, Tree.ParentOk;
    assert Tree.Husk(t, d);
  }

  /** sys_unlink; `ok` is false if the walk goes astray and an assertion fails. */
  method SysUnlink(fs: Fs, cwd: nat, path: Path) returns (r: int, ok: bool)
    requires fs.Valid() && World(fs.vol, fs.g) && FreeUnused(fs.vol, fs.g, fs.ref)
    requires Startable(fs.vol, fs.g, fs.ref, path, cwd) && ShortNames(Comps(path))
    modifies fs
    ensures ok <==> !Strays(Abs(old(fs.vol), fs.g), Start(path, cwd), Comps(path))
    ensures fs.Valid() && World(fs.vol, fs.g)
    ensures ok ==> FreeUnused(fs.vol, fs.g, fs.ref)
    ensures ok && Referenced(old(fs.vol), fs.g, old(fs.ref)) ==> Referenced(fs.vol, fs.g, fs.ref)
    ensures ok ==> UnlinkAnswer(old(fs.vol), fs.vol, fs.g, Start(path, cwd), Comps(path), old(fs.ref), fs.ref, r)
    ensures ok ==> UnlinkLogged(old(fs.vol), fs.g, Start(path, cwd), Comps(path), old(fs.ref), r, old(fs.dirty), fs.dirty)
    ensures ok ==> OpenFilesKept(old(fs.vol), fs.vol, fs.g)
    ensures Follows(fs.g, old(fs.Disk()), fs.Disk())
  {
    hide Owned, Settled, Contents, Abs, Tree.Ok, IsDir, Comps, WalkParent, DirSizes, FieldsOk, Find, Gone, Follows, Strays, Startable, Standing, Referenced, UnlinkSet, InTable, OpenFilesKept;
    FollowsRefl(fs.g, fs.Disk());
    AllKept(fs.vol, fs.g);
    ghost var v, g, ref0 := fs.vol, fs.g, fs.ref;
    ghost var t := Abs(v, g);
    var d, name;
    d, name, ok := PathLookup0(fs, cwd, path, true);
    if !ok { return -1, ok; }
    if d == 0 { return -1, ok; }
    PlusReferenced(v, g, ref0, d);
    if name == DOT || name == DOTDOT { return -1, ok; }
    ParentIsDir(t, Start(path, cwd), Comps(path));
    NodeType(v, g, d);
    AnyDir(v, g, d);
    if Tree.RemovedDir(t, d) { NothingToUnlink(t, d, name); }
    var k, ip := DirLookup(fs, d, name);
    if ip == 0 {
      PutHeld(fs, d, ref0);
      return -1, ok;
    }
    ParentAlive(v, g, d);
    EntryAlive(v, g, d, k);
    r := UnlinkHere(fs, d, k, ip, ref0);
    if Tree.CanUnlink(t, d, k) { GoneTypes(v, fs.vol, g, d, k, ref0); }
  }

  lemma PlusReferenced(v: Vol, g: Geo, ref: seq<nat>, d: nat)
    requires InUse(v, g, d) && |ref| == g.ninodes
    ensures Referenced(v, g, ref) ==> Referenced(v, g, Plus(ref, d))
    ensures FreeUnused(v, g, ref) ==> FreeUnused(v, g, Plus(ref, d))
  {
  }

  lemma EntryAlive(v: Vol, g: Geo, d: nat, k: nat)
    requires World(v, g) && Tree.LinkedDir(Abs(v, g), d) && k < |Abs(v, g)[d].slots| && Live(Abs(v, g)[d].slots[k])
    ensures Alive(v, g, Abs(v, g)[d].slots[k].inum)
  {
    hide Contents, Tree.Ok;
    WorldDir(v, g, d);
  }

  lemma GoneTypes(v: Vol, w: Vol, g: Geo, d: nat, k: nat, ref: seq<nat>)
    requires World(v, g) && World(w, g) && Gone(Abs(v, g), Abs(w, g), d, k, ref) && FreeUnused(v, g, ref)
    ensures FreeUnused(w, g, ref) && (Referenced(v, g, ref) ==> Referenced(w, g, ref))
  {
    hide Tree.Ok, Contents;
    UnlinkedTree(Abs(v, g), d, k);
    forall j | 0 <= j < |ref| && w.tab[j].typ == NONE ensures ref[j] == 0 {
      NodeType(v, g, j);
      NodeType(w, g, j);
    }
    forall j | 0 < j < |ref| && w.tab[j].typ != NONE && w.tab[j].nlink == 0 && Referenced(v, g, ref) ensures ref[j] >= 1 {
      NodeType(v, g, j);
      NodeType(w, g, j);
    }
  }

  /** Writing a plain file leaves the tree alone. */
  lemma WritesKeepTree(v: Vol, w: Vol, g: Geo, i: nat, off: nat, src: seq<byte>)
    requires World(v, g) && Spliced(v, w, g, i, off, src) && v.tab[i].typ == FILE
    ensures World(w, g) && Abs(w, g) == Abs(v, g)
  {
    hide Tree.Ok, Contents, Slots;
    AbsOthers(v, w, g, i);
    assert Abs(v, g)[i] == NodeOf(v, g, i);
    assert Abs(w, g) == Abs(v, g);
  }
}
