/** fs/dir.c as code over inode_read and inode_write. */
module DirectoryCode {
  import opened Blocks
  import Common
  import opened Volume
  import opened FileSystem
  import opened InodeLife
  import opened Directory

  /** A directory, as its own assertions require it. */
  ghost predicate IsDir(v: Vol, g: Geo, i: int) {
    && Shape(v, g) && InUse(v, g, i) && v.tab[i].typ == DIRECTORY
    && v.tab[i].size % DIRENT == 0 && v.tab[i].size <= MAX_BLOCKS * BLOCK_SIZE
  }

  ghost function SlotsOf(v: Vol, g: Geo, i: int): (r: seq<Slot>)
    requires IsDir(v, g, i)
    ensures |r| == v.tab[i].size / DIRENT
  {
    Slots(Contents(v, g, i))
  }

  /** Every live entry names a linked inode. */
  ghost predicate NamesOk(v: Vol, g: Geo, s: seq<Slot>) {
    forall k :: 0 <= k < |s| && Live(s[k]) ==> InUse(v, g, s[k].inum) && v.tab[s[k].inum].nlink >= 1
  }

  /** Every live entry names an inode of the table. */
  predicate InTable(g: Geo, s: seq<Slot>) {
    forall k :: 0 <= k < |s| && Live(s[k]) ==> s[k].inum < g.ninodes
  }

  lemma NamesInTable(v: Vol, g: Geo, s: seq<Slot>)
    requires NamesOk(v, g, s)
    ensures InTable(g, s)
  {
    forall k | 0 <= k < |s| && Live(s[k]) ensures s[k].inum < g.ninodes { assert InUse(v, g, s[k].inum); }
  }

  /** Reading entry `k`; every loop of dir.c does this. */
  method ReadSlot(fs: Fs, dir: nat, k: nat) returns (b: seq<byte>)
    requires fs.Valid() && IsDir(fs.vol, fs.g, dir) && DIRENT * k < fs.vol.tab[dir].size
    modifies fs`vol, fs`dirty, fs`book
    ensures fs.Now() == old(fs.Now()) && |b| == DIRENT && Decode(b) == SlotsOf(fs.vol, fs.g, dir)[k]
  {
    hide Owned, Settled, Contents, Decode;
    var r := InodeRead(fs, dir, DIRENT * k, DIRENT);
    b := r.bytes;
  }

  /** The loop of dir_lookup. */
  method ScanName(fs: Fs, dir: nat, name: Name) returns (k: nat, inum: nat)
    requires fs.Valid() && IsDir(fs.vol, fs.g, dir)
    modifies fs`vol, fs`dirty, fs`book
    ensures fs.Now() == old(fs.Now())
    ensures k == Find(SlotsOf(fs.vol, fs.g, dir), name) && inum == Resolve(SlotsOf(fs.vol, fs.g, dir), name)
  {
    hide Owned, Settled, Contents, Decode, Find, IsDir;
    ghost var s := SlotsOf(fs.vol, fs.g, dir);
    SizeIs(fs.vol, fs.g, dir);
    k := 0;
    while DIRENT * k < fs.vol.tab[dir].size
      invariant 0 <= k <= |s| && fs.Now() == old(fs.Now())
      invariant forall j :: 0 <= j < k ==> !(Live(s[j]) && s[j].name == name)
    {
      var b := ReadSlot(fs, dir, k);
      var e := Decode(b);
      if e.inum != 0 && e.name == name {
        return k, e.inum;
      }
      k := k + 1;
    }
    inum := 0;
  }

  lemma SizeIs(v: Vol, g: Geo, i: int)
    requires IsDir(v, g, i)
    ensures |SlotsOf(v, g, i)| * DIRENT == v.tab[i].size && 0 <= i < |v.tab|
    ensures v.tab[i].size <= MAX_BLOCKS * BLOCK_SIZE
  {
  }

  /** dir_lookup: the inode found gets a reference. */
  method DirLookup(fs: Fs, dir: nat, name: Name) returns (k: nat, inum: nat)
    requires fs.Valid() && IsDir(fs.vol, fs.g, dir) && InTable(fs.g, SlotsOf(fs.vol, fs.g, dir))
    requires |fs.ref| == fs.g.ninodes && |name| <= NAME_LEN
    modifies fs`vol, fs`dirty, fs`book, fs`ref
    ensures fs.Now() == old(fs.Now())
    ensures k == Find(SlotsOf(fs.vol, fs.g, dir), name) && inum == Resolve(SlotsOf(fs.vol, fs.g, dir), name)
    ensures inum != 0 ==> k < |SlotsOf(fs.vol, fs.g, dir)| && SlotsOf(fs.vol, fs.g, dir)[k] == Slot(inum, name)
    ensures inum == 0 ==> fs.ref == old(fs.ref)
    ensures inum != 0 ==> inum < |old(fs.ref)| && fs.ref == old(fs.ref)[inum := old(fs.ref)[inum] + 1]
  {
    hide Owned, Settled, Contents, Decode, Find, IsDir;
    k, inum := ScanName(fs, dir, name);
    if inum != 0 {
      fs.ref := fs.ref[inum := fs.ref[inum] + 1];
    }
  }

  datatype Outcome = Done | Denied | Panicked

  /** How many blocks writing entry `k` logs at most, the inode apart. */
  function SlotCost(size: nat, k: nat): nat { Cost(size, DIRENT * k, DIRENT) }

  /** And how many it allocates. */
  function SlotNeed(size: nat, k: nat): nat { Added(size, DIRENT * k + DIRENT) }

  /** An entry that is there needs none; the first two of a new directory need one. */
  lemma SlotNeeds(size: nat, k: nat)
    ensures DIRENT * k + DIRENT <= size ==> SlotNeed(size, k) == 0
    ensures SlotNeed(0, 0) == 1 && SlotNeed(DIRENT, 1) == 0
  {
    NeededMath(DIRENT * k + DIRENT, if DIRENT * k + DIRENT <= size then size else DIRENT * k + DIRENT);
  }

  /** An entry lies in one block. */
  lemma SlotInBlock(k: nat, size: nat)
    ensures DIRENT * k % BLOCK_SIZE + DIRENT <= BLOCK_SIZE && DIRENT * k / BLOCK_SIZE == k / 8
    ensures size % DIRENT == 0 && DIRENT * k < size ==> DIRENT * k + DIRENT <= size
  {
  }

  /** Four blocks at most; two for the first entry of an empty directory and one for
      the second. */
  lemma SlotCosts(size: nat, k: nat)
    requires DIRENT * k <= size
    ensures SlotCost(size, k) <= 4 && SlotCost(0, 0) == 2 && SlotCost(DIRENT, 1) == 1
  {
    SlotInBlock(k, size);
    OneBlock(DIRENT * k, DIRENT);
    NeededMath(DIRENT * k, size);
    assert Spanned(DIRENT * k, DIRENT * k + DIRENT) == 1;
  }

  /** Writing an entry with inode_write. */
  method WriteSlot(fs: Fs, dir: nat, k: nat, b: seq<byte>) returns (r: Outcome)
    requires fs.Valid() && IsDir(fs.vol, fs.g, dir) && DIRENT * k <= fs.vol.tab[dir].size && |b| == DIRENT
    modifies fs`vol, fs`slots, fs`dirty, fs`book
    ensures r == Denied <==> DIRENT * k + DIRENT > MAX_BLOCKS * BLOCK_SIZE
    ensures r == Denied ==> fs.Valid() && fs.vol == old(fs.vol) && fs.dirty == old(fs.dirty)
    ensures r == Done ==> Grows(old(fs.dirty), fs.dirty, {InodeBlockNo(fs.g, dir)}, SlotCost(old(fs.vol).tab[dir].size, k))
    ensures r == Done && DIRENT * k < old(fs.vol).tab[dir].size ==> Overwrote(old(fs.Now()), fs.Now(), fs.g, dir, DIRENT * k, b)
    ensures r == Done ==> fs.Valid() && Rewritten(old(fs.vol), fs.vol, fs.g, dir, PutSlot(old(SlotsOf(fs.vol, fs.g, dir)), k, Decode(b)))
    ensures r == Panicked <==> DIRENT * k + DIRENT <= MAX_BLOCKS * BLOCK_SIZE && FreeBits(old(fs.vol).bits) < SlotNeed(old(fs.vol).tab[dir].size, k)
    ensures r == Done ==> FreeBits(fs.vol.bits) + SlotNeed(old(fs.vol).tab[dir].size, k) == FreeBits(old(fs.vol).bits)
    ensures Follows(fs.g, old(fs.Disk()), fs.Disk())
  {
    hide Owned, Settled, Contents, Decode, OthersKept, Follows, Grows, Cost, Overwrote, FreeBits, Added;
    ghost var v := fs.vol;
    SlotInBlock(k, v.tab[dir].size);
    SpliceSlot(Contents(v, fs.g, dir), k, b);
    var w := fs.InodeWrite(dir, b, DIRENT * k);
    match w
    case Written(_) => r := Done;
    case Refused => r := Denied;
    case Panic => r := Panicked;
  }

  /** Directory `dir` now has the entries `s`; its other fields and all other
      files are as before. */
  ghost predicate Rewritten(v: Vol, w: Vol, g: Geo, dir: int, s: seq<Slot>) {
    && IsDir(v, g, dir) && IsDir(w, g, dir) && SlotsOf(w, g, dir) == s
    && w.tab[dir] == v.tab[dir].(addrs := w.tab[dir].addrs, size := w.tab[dir].size)
    && OthersKept(v, w, g, dir)
  }

  /** The search of dir_link for a free entry. */
  method ScanFree(fs: Fs, dir: nat) returns (k: nat)
    requires fs.Valid() && IsDir(fs.vol, fs.g, dir)
    modifies fs`vol, fs`dirty, fs`book
    ensures fs.Now() == old(fs.Now()) && k == FirstFree(SlotsOf(fs.vol, fs.g, dir))
  {
    hide Owned, Settled, Contents, Decode, FirstFree, IsDir;
    ghost var s := SlotsOf(fs.vol, fs.g, dir);
    SizeIs(fs.vol, fs.g, dir);
    k := 0;
    while DIRENT * k < fs.vol.tab[dir].size
      invariant 0 <= k <= |s| && fs.Now() == old(fs.Now()) && forall j :: 0 <= j < k ==> Live(s[j])
    {
      var b := ReadSlot(fs, dir, k);
      if Decode(b).inum == 0 {
        return k;
      }
      k := k + 1;
    }
  }

  /** dir_link: refused if the name is taken or the directory is as long as a
      file can be; otherwise the first free entry becomes the new one. */
  method DirLink(fs: Fs, dir: nat, ent: seq<byte>) returns (r: Outcome)
    requires fs.Valid() && IsDir(fs.vol, fs.g, dir) && NamesOk(fs.vol, fs.g, SlotsOf(fs.vol, fs.g, dir))
    requires |fs.ref| == fs.g.ninodes
    requires |ent| == DIRENT && Live(Decode(ent)) && 0 < |Decode(ent).name| < NAME_LEN
    modifies fs
    ensures var s := old(SlotsOf(fs.vol, fs.g, dir));
            r == Denied <==> Resolve(s, Decode(ent).name) != 0 || (FirstFree(s) == |s| && |s| * DIRENT == MAX_BLOCKS * BLOCK_SIZE)
    ensures r == Denied ==> fs.Valid() && fs.vol == old(fs.vol) && fs.dirty == old(fs.dirty)
    ensures r == Done ==> Grows(old(fs.dirty), fs.dirty, {InodeBlockNo(fs.g, dir)},
                                SlotCost(old(fs.vol).tab[dir].size, FirstFree(old(SlotsOf(fs.vol, fs.g, dir)))))
    ensures r == Done ==> fs.Valid() && Rewritten(old(fs.vol), fs.vol, fs.g, dir, Linked(old(SlotsOf(fs.vol, fs.g, dir)), Decode(ent)))
    ensures var (s, size) := (old(SlotsOf(fs.vol, fs.g, dir)), old(fs.vol).tab[dir].size);
            && (r == Panicked <==> Resolve(s, Decode(ent).name) == 0 && !(FirstFree(s) == |s| && |s| * DIRENT == MAX_BLOCKS * BLOCK_SIZE)
                                   && FreeBits(old(fs.vol).bits) < SlotNeed(size, FirstFree(s)))
            && (r == Done ==> FreeBits(fs.vol.bits) + SlotNeed(size, FirstFree(s)) == FreeBits(old(fs.vol).bits))
    ensures fs.ref == old(fs.ref)
    ensures Follows(fs.g, old(fs.Disk()), fs.Disk())
  {
    hide Owned, Settled, Contents, Decode, Find, FirstFree, IsDir, OthersKept, FreeBits, Follows, Grows, SlotCost, Overwrote, ReleaseSet, SlotNeed;
    ghost var names := SlotsOf(fs.vol, fs.g, dir);
    NamesInTable(fs.vol, fs.g, names);
    var k, ip := DirLookup(fs, dir, Decode(ent).name);
    if ip != 0 {
      assert Live(names[k]) && InUse(fs.vol, fs.g, names[k].inum);
      var loaded: bool := *;
      InodePut(fs, ip, loaded);
      return Denied;
    }
    SizeIs(fs.vol, fs.g, dir);
    ghost var s := SlotsOf(fs.vol, fs.g, dir);
    k := ScanFree(fs, dir);
    r := WriteSlot(fs, dir, k, ent);
  }

  /** What dir_unlink writes. */
  function Zeros(): (b: seq<byte>)
    ensures |b| == DIRENT && Decode(b) == FREE
  {
    var b: seq<byte> := Common.Repeat(DIRENT, 0);
    DecodeZero(b);
    b
  }

  /** dir_unlink: cannot fail on a live entry. */
  method DirUnlink(fs: Fs, dir: nat, k: nat) returns (r: Outcome)
    requires fs.Valid() && IsDir(fs.vol, fs.g, dir) && k < |SlotsOf(fs.vol, fs.g, dir)|
    requires Live(SlotsOf(fs.vol, fs.g, dir)[k])
    modifies fs`vol, fs`slots, fs`dirty, fs`book
    ensures r == Done && fs.Valid()
    ensures Rewritten(old(fs.vol), fs.vol, fs.g, dir, Unlinked(old(SlotsOf(fs.vol, fs.g, dir)), k))
    ensures Overwrote(old(fs.Now()), fs.Now(), fs.g, dir, DIRENT * k, Zeros())
    ensures Follows(fs.g, old(fs.Disk()), fs.Disk())
  {
    hide Owned, Settled, Contents, Decode, OthersKept, Follows, Zeros, Grows, SlotCost, Overwrote, FreeBits, SlotNeed;
    SlotInBlock(k, fs.vol.tab[dir].size);
    SlotNeeds(fs.vol.tab[dir].size, k);
    r := WriteSlot(fs, dir, k, Zeros());
  }

  /** dir_isempty: nothing live after the first two entries. */
  method DirIsEmpty(fs: Fs, dir: nat) returns (empty: bool)
    requires fs.Valid() && IsDir(fs.vol, fs.g, dir)
    modifies fs`vol, fs`dirty, fs`book
    ensures fs.Now() == old(fs.Now())
    ensures empty <==> forall k :: 2 <= k < |SlotsOf(fs.vol, fs.g, dir)| ==> !Live(SlotsOf(fs.vol, fs.g, dir)[k])
  {
    hide Owned, Settled, Contents, Decode, IsDir;
    ghost var s := SlotsOf(fs.vol, fs.g, dir);
    SizeIs(fs.vol, fs.g, dir);
    var k := 2;
    while DIRENT * k < fs.vol.tab[dir].size
      invariant 2 <= k && fs.Now() == old(fs.Now()) && forall j :: 2 <= j < k && j < |s| ==> !Live(s[j])
    {
      var b := ReadSlot(fs, dir, k);
      if Decode(b).inum != 0 {
        return false;
      }
      k := k + 1;
    }
    empty := true;
  }
}
