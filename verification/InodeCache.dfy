/** The table of in-memory inodes: iget, inode_dup, inode_lock's load and the end
    of inode_put in fs/inode.c. */
module InodeCache {
  import opened Common

  const NINODES: nat := 50

  datatype Key = Key(disk: nat, inum: nat)

  /** One table entry; `of` says whose disk inode the entry holds a copy of. */
  datatype Inode = Inode(key: Key, ref: nat, valid: bool, of: Key)

  predicate Holds(s: seq<Inode>, i: int, k: Key) {
    0 <= i < |s| && s[i].ref > 0 && s[i].key == k
  }

  /** No inode is in memory twice, and no entry in use shows another inode's copy. */
  predicate Ok(s: seq<Inode>) {
    && |s| == NINODES
    && (forall i, j :: 0 <= i < j < |s| && s[i].ref > 0 && s[j].ref > 0 ==> s[i].key != s[j].key)
    && (forall i :: 0 <= i < |s| && s[i].ref > 0 && s[i].valid ==> s[i].of == s[i].key)
  }

  /** The number of references to an inode, wherever it is kept. */
  function Refs(s: seq<Inode>, k: Key): nat {
    if s == [] then 0 else Refs(s[..|s| - 1], k) + if s[|s| - 1].key == k then s[|s| - 1].ref else 0
  }

  function At(e: Inode, k: Key): nat { if e.key == k then e.ref else 0 }

  lemma {:induction false} RefsSet(s: seq<Inode>, i: nat, e: Inode, k: Key)
    requires i < |s|
    ensures Refs(s[i := e], k) == Refs(s, k) - At(s[i], k) + At(e, k)
  {
    var m := |s| - 1;
    if i == m {
      assert s[i := e][..m] == s[..m];
    } else {
      RefsSet(s[..m], i, e, k);
      assert s[i := e][..m] == s[..m][i := e];
    }
  }

  /** One entry of the table changes, and with it the count of one inode. */
  lemma Changed(s: seq<Inode>, i: nat, e: Inode, k: Key)
    requires i < |s| && (s[i].key == k || s[i].ref == 0) && e.key == k
    ensures Refs(s[i := e], k) == Refs(s, k) - At(s[i], k) + e.ref
    ensures forall l :: l != k ==> Refs(s[i := e], l) == Refs(s, l)
  {
    hide Refs;
    RefsSet(s, i, e, k);
    forall l | l != k ensures Refs(s[i := e], l) == Refs(s, l) { RefsSet(s, i, e, l); }
  }

  class Icache {
    var inodes: seq<Inode>

    constructor ()
      ensures Ok(inodes) && forall k :: Refs(inodes, k) == 0
    {
      inodes := seq(NINODES, _ => Inode(Key(0, 0), 0, false, Key(0, 0)));
      new;
      NoRefs(inodes);
    }

    /** iget: the entry that has the inode, or else the first unused one, which
        must be loaded again.  None is the failed assertion, exactly when all fifty
        entries are in use for other inodes. */
    method Iget(k: Key) returns (r: Option<nat>)
      requires Ok(inodes)
      modifies this
      ensures Ok(inodes)
      ensures r.None? <==> forall i :: 0 <= i < NINODES ==> old(inodes)[i].ref > 0 && old(inodes)[i].key != k
      ensures r.None? ==> inodes == old(inodes)
      ensures r.Some? ==> Holds(inodes, r.value, k) && inodes == old(inodes)[r.value := inodes[r.value]]
      ensures r.Some? ==> (inodes[r.value].valid ==> Holds(old(inodes), r.value, k))
      ensures r.Some? ==> forall i :: Holds(old(inodes), i, k) ==> i == r.value
      ensures r.Some? ==> Refs(inodes, k) == Refs(old(inodes), k) + 1
      ensures forall l :: l != k ==> Refs(inodes, l) == Refs(old(inodes), l)
    {
      hide Refs;
      var empty: Option<nat> := None;
      var i := 0;
      while i < NINODES
        invariant 0 <= i <= NINODES && inodes == old(inodes)
        invariant forall j :: 0 <= j < i ==> inodes[j].ref == 0 || inodes[j].key != k
        invariant empty.None? ==> forall j :: 0 <= j < i ==> inodes[j].ref > 0
        invariant empty.Some? ==> empty.value < i && inodes[empty.value].ref == 0
      {
        var e := inodes[i];
        if e.ref > 0 && e.key == k {
          Changed(inodes, i, e.(ref := e.ref + 1), k);
          inodes := inodes[i := e.(ref := e.ref + 1)];
          return Some(i);
        }
        if empty.None? && e.ref == 0 {
          empty := Some(i);
        }
        i := i + 1;
      }
      if empty.Some? {
        var e := inodes[empty.value];
        Changed(inodes, empty.value, Inode(k, 1, false, e.of), k);
        inodes := inodes[empty.value := Inode(k, 1, false, e.of)];
      }
      r := empty;
    }

    /** The load in inode_lock. */
    method Load(i: nat)
      requires Ok(inodes) && i < NINODES && inodes[i].ref > 0
      modifies this
      ensures Ok(inodes) && inodes[i].valid && inodes[i].of == inodes[i].key == old(inodes)[i].key
      ensures forall l :: Refs(inodes, l) == Refs(old(inodes), l)
    {
      hide Refs;
      if !inodes[i].valid {
        var e := inodes[i].(valid := true, of := inodes[i].key);
        forall l ensures Refs(inodes[i := e], l) == Refs(inodes, l) { RefsSet(inodes, i, e, l); }
        inodes := inodes[i := e];
      }
    }

    /** The end of inode_put. */
    method Drop(i: nat)
      requires Ok(inodes) && i < NINODES && inodes[i].ref > 0
      modifies this
      ensures Ok(inodes) && var k := old(inodes)[i].key;
              Refs(inodes, k) == Refs(old(inodes), k) - 1 && forall l :: l != k ==> Refs(inodes, l) == Refs(old(inodes), l)
    {
      hide Refs;
      var e := inodes[i].(ref := inodes[i].ref - 1);
      Changed(inodes, i, e, e.key);
      inodes := inodes[i := e];
    }
  }

  lemma {:induction false} NoRefs(s: seq<Inode>)
    requires forall i :: 0 <= i < |s| ==> s[i].ref == 0
    ensures forall k :: Refs(s, k) == 0
  {
    if s != [] { NoRefs(s[..|s| - 1]); }
  }
}
