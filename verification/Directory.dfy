/** Directories: fs/dir.c.  A directory is a file of 64-byte entries, an inode
    number and a NUL-terminated name; inode number 0 marks a free entry. */
module Directory {
  import opened Blocks
  import opened Common
  import opened Volume
  import opened FileSystem
  import opened InodeLife

  const DIRENT: nat := 64
  const NAME_LEN: nat := 60  // DIRENT_NAME_LENGTH

  /** A name without its terminating NUL. */
  type Name = seq<byte>

  datatype Slot = Slot(inum: nat, name: Name)

  const DOT: Name := [46]
  const DOTDOT: Name := [46, 46]

  function Decode(b: seq<byte>): Slot
    requires |b| == DIRENT
  {
    var b0: int, b1: int, b2: int, b3: int := b[0], b[1], b[2], b[3];
    Slot(b0 + 0x100 * b1 + 0x1_0000 * b2 + 0x100_0000 * b3, CString(b[4..], 0))
  }

  /** The entries of a directory, in order. */
  function Slots(c: seq<byte>): (r: seq<Slot>)
    ensures |r| == |c| / DIRENT
  {
    seq(|c| / DIRENT, k requires 0 <= k < |c| / DIRENT => Decode(c[DIRENT * k..DIRENT * k + DIRENT]))
  }

  predicate Live(s: Slot) { s.inum != 0 }

  // ------------------------------------------------------------------
  // Searching and changing entries
  // ------------------------------------------------------------------

  /** The first live entry of that name, or one past the last entry. */
  function Find(s: seq<Slot>, n: Name): (k: nat)
    ensures k <= |s| && (k < |s| ==> Live(s[k]) && s[k].name == n)
    ensures forall j :: 0 <= j < k ==> !(Live(s[j]) && s[j].name == n)
  {
    if s == [] then 0 else if Live(s[0]) && s[0].name == n then 0
    else
      var k := Find(s[1..], n);
      assert forall j :: 1 <= j < |s| ==> s[j] == s[1..][j - 1];
      k + 1
  }

  /** The first free entry, or one past the last entry. */
  function FirstFree(s: seq<Slot>): (k: nat)
    ensures k <= |s| && (k < |s| ==> !Live(s[k]))
    ensures forall j :: 0 <= j < k ==> Live(s[j])
  {
    if s == [] || !Live(s[0]) then 0
    else
      var k := FirstFree(s[1..]);
      assert forall j :: 1 <= j < |s| ==> s[j] == s[1..][j - 1];
      k + 1
  }

  function PutSlot(s: seq<Slot>, k: nat, e: Slot): seq<Slot>
    requires k <= |s|
  {
    if k < |s| then s[k := e] else s + [e]
  }

  function Linked(s: seq<Slot>, e: Slot): seq<Slot> {
    PutSlot(s, FirstFree(s), e)
  }

  const FREE: Slot := Slot(0, [])

  function Unlinked(s: seq<Slot>, k: nat): seq<Slot>
    requires k < |s|
  {
    s[k := FREE]
  }

  // ------------------------------------------------------------------
  // A directory is a map
  // ------------------------------------------------------------------

  predicate UniqueNames(s: seq<Slot>) {
    forall j, k :: 0 <= j < k < |s| && Live(s[j]) && Live(s[k]) ==> s[j].name != s[k].name
  }

  ghost function NamesIn(s: seq<Slot>): set<Name> {
    set k | 0 <= k < |s| && Live(s[k]) :: s[k].name
  }

  /** The directory as a map from names to inode numbers. */
  ghost function Entries(s: seq<Slot>): map<Name, nat> {
    map n | n in NamesIn(s) :: Resolve(s, n)
  }

  /** What dir_lookup answers; 0 is NULL. */
  function Resolve(s: seq<Slot>, n: Name): nat {
    var k := Find(s, n);
    if k < |s| then s[k].inum else 0
  }

  /** With unique names, any live entry of a name is the one that is found. */
  lemma FindIs(s: seq<Slot>, k: nat)
    requires UniqueNames(s) && k < |s| && Live(s[k])
    ensures Find(s, s[k].name) == k
  {
  }

  /** Find is the only place with its two properties. */
  lemma FindFirst(s: seq<Slot>, n: Name, k: nat)
    requires k <= |s| && (k < |s| ==> Live(s[k]) && s[k].name == n) && forall j :: 0 <= j < k ==> !(Live(s[j]) && s[j].name == n)
    ensures Find(s, n) == k
  {
  }

  /** A new entry is found under its name and hides no other. */
  lemma ResolveLinked(s: seq<Slot>, e: Slot, n: Name)
    requires Live(e) && Resolve(s, e.name) == 0
    ensures Resolve(Linked(s, e), n) == if n == e.name then e.inum else Resolve(s, n)
  {
    hide Find, FirstFree;
    var r, f := Linked(s, e), FirstFree(s);
    assert r[f] == e && forall j :: 0 <= j < |s| && j != f ==> r[j] == s[j];
    if n == e.name {
      FindFirst(r, n, f);
    } else {
      var k := Find(s, n);
      if k < |s| { FindFirst(r, n, k); } else { FindFirst(r, n, |r|); }
    }
  }

  lemma LookupIsMap(s: seq<Slot>, n: Name)
    ensures Find(s, n) < |s| <==> n in Entries(s)
    ensures n in Entries(s) ==> Resolve(s, n) == Entries(s)[n] != 0
    ensures n !in Entries(s) ==> Resolve(s, n) == 0
  {
    var k := Find(s, n);
    if k < |s| { assert s[k].name in NamesIn(s); }
  }

  predicate HasName(s: seq<Slot>, n: Name) {
    exists k :: 0 <= k < |s| && Live(s[k]) && s[k].name == n
  }

  ghost predicate Shows(s: seq<Slot>, m: map<Name, nat>) {
    && (forall k :: 0 <= k < |s| && Live(s[k]) ==> s[k].name in m && m[s[k].name] == s[k].inum)
    && (forall n :: n in m ==> HasName(s, n))
  }

  /** The map a directory shows is its Entries. */
  lemma EntriesShow(s: seq<Slot>)
    requires UniqueNames(s)
    ensures Shows(s, Entries(s))
  {
    hide Find;
    forall k | 0 <= k < |s| && Live(s[k]) ensures s[k].name in Entries(s) && Entries(s)[s[k].name] == s[k].inum {
      assert s[k].name in NamesIn(s);
      FindIs(s, k);
    }
  }

  lemma ShownIsEntries(s: seq<Slot>, m: map<Name, nat>)
    requires UniqueNames(s) && Shows(s, m)
    ensures Entries(s) == m
  {
    hide Entries, HasName;
    EntriesShow(s);
    forall n ensures n in m <==> n in Entries(s) {
      if n in m { assert HasName(s, n); Named(s, n); }
      if n in Entries(s) { assert HasName(s, n); Named(s, n); }
    }
    forall n | n in m ensures m[n] == Entries(s)[n] { assert HasName(s, n); Named(s, n); }
  }

  lemma Named(s: seq<Slot>, n: Name)
    requires HasName(s, n)
    ensures exists k :: 0 <= k < |s| && Live(s[k]) && s[k].name == n
  {
  }

  /** dir_link adds exactly the new name. */
  lemma LinkIsInsert(s: seq<Slot>, e: Slot)
    requires UniqueNames(s) && Live(e) && e.name !in Entries(s)
    ensures UniqueNames(Linked(s, e)) && Entries(Linked(s, e)) == Entries(s)[e.name := e.inum]
  {
    hide Entries, FirstFree;
    var t, f := Linked(s, e), FirstFree(s);
    EntriesShow(s);
    var m := Entries(s)[e.name := e.inum];
    assert t[f] == e && forall k :: 0 <= k < |s| && k != f ==> t[k] == s[k];
    forall n | n in m ensures HasName(t, n) {
      if n != e.name {
        assert HasName(s, n);
        var k :| 0 <= k < |s| && Live(s[k]) && s[k].name == n;
        assert t[k] == s[k];
      }
    }
    ShownIsEntries(t, m);
  }

  /** dir_unlink removes exactly the name of its entry. */
  lemma UnlinkIsRemove(s: seq<Slot>, k: nat)
    requires UniqueNames(s) && k < |s| && Live(s[k])
    ensures UniqueNames(Unlinked(s, k)) && Entries(Unlinked(s, k)) == Entries(s) - {s[k].name}
  {
    hide Entries;
    var t := Unlinked(s, k);
    EntriesShow(s);
    var m := Entries(s) - {s[k].name};
    forall n | n in m ensures HasName(t, n) {
      assert HasName(s, n);
      var j :| 0 <= j < |s| && Live(s[j]) && s[j].name == n;
      assert t[j] == s[j];
    }
    ShownIsEntries(t, m);
  }

  // ------------------------------------------------------------------
  // Bytes
  // ------------------------------------------------------------------

  lemma SlotMath(n: nat, k: nat)
    requires n % DIRENT == 0 && DIRENT * k <= n
    ensures DIRENT * k + DIRENT < n ==> k < n / DIRENT
    ensures DIRENT * k + DIRENT > n <==> DIRENT * k == n
    ensures DIRENT * k == n <==> k == n / DIRENT
    ensures (n + DIRENT) % DIRENT == 0 && (n + DIRENT) / DIRENT == n / DIRENT + 1
  {
  }

  /** What lies in a spliced sequence, by position. */
  lemma SpliceAt(c: seq<byte>, at: nat, b: seq<byte>, x: nat)
    requires at <= |c| && x < |Splice(c, at, b)|
    ensures |Splice(c, at, b)| == if at + |b| < |c| then |c| else at + |b|
    ensures Splice(c, at, b)[x] == if at <= x < at + |b| then b[x - at] else c[x]
  {
  }

  lemma SpliceSlice(c: seq<byte>, k: nat, b: seq<byte>, j: nat)
    requires |c| % DIRENT == 0 && DIRENT * k <= |c| && |b| == DIRENT && DIRENT * j + DIRENT <= |Splice(c, DIRENT * k, b)|
    ensures j == k ==> Splice(c, DIRENT * k, b)[DIRENT * j..DIRENT * j + DIRENT] == b
    ensures j != k ==> DIRENT * j + DIRENT <= |c| && Splice(c, DIRENT * k, b)[DIRENT * j..DIRENT * j + DIRENT] == c[DIRENT * j..DIRENT * j + DIRENT]
  {
    hide Splice;
    var d, at := Splice(c, DIRENT * k, b), DIRENT * j;
    SpliceAt(c, DIRENT * k, b, at);
    SlotMath(|c|, k);
    var e := d[at..at + DIRENT];
    forall y | 0 <= y < DIRENT ensures e[y] == (if j == k then b[y] else c[at + y]) { SpliceAt(c, DIRENT * k, b, at + y); }
    if j == k {
      assert e == b;
    } else {
      assert at + DIRENT <= |c|;
      assert e == c[at..at + DIRENT];
    }
  }

  /** Writing one 64-byte entry at a multiple of 64 changes that entry only. */
  lemma SpliceSlot(c: seq<byte>, k: nat, b: seq<byte>)
    requires |c| % DIRENT == 0 && DIRENT * k <= |c| && |b| == DIRENT
    ensures |Splice(c, DIRENT * k, b)| % DIRENT == 0
    ensures Slots(Splice(c, DIRENT * k, b)) == PutSlot(Slots(c), k, Decode(b))
  {
    hide Decode, Splice;
    var d, at := Splice(c, DIRENT * k, b), DIRENT * k;
    SlotMath(|c|, k);
    SpliceLength(c, at, b);
    assert |d| == if k < |c| / DIRENT then |c| else |c| + DIRENT;
    forall j | 0 <= j < |d| / DIRENT ensures Slots(d)[j] == PutSlot(Slots(c), k, Decode(b))[j] { SpliceSlice(c, k, b, j); }
  }

  lemma SpliceLength(c: seq<byte>, at: nat, b: seq<byte>)
    requires at <= |c|
    ensures |Splice(c, at, b)| == if at + |b| < |c| then |c| else at + |b|
  {
  }

  lemma DecodeZero(b: seq<byte>)
    requires |b| == DIRENT && forall x :: 0 <= x < DIRENT ==> b[x] == 0
    ensures Decode(b) == FREE
  {
  }
}
