/** The buffer cache of kernel/device/ide/bio.c: forty buffers on a circular
    doubly-linked list in order of last use.  Buffer numbers stand for the
    addresses `bcache.bufs + i`; HEAD stands for `&bcache.head`. */
module BufferCache {
  import opened Blocks
  import opened Common

  const NBUF: nat := 40
  const HEAD: nat := NBUF

  // ------------------------------------------------------------------
  // The circular list
  // ------------------------------------------------------------------

  /** Position after `i` on a circle of `n` nodes. */
  function Succ(n: nat, i: int): int
    requires 0 <= i < n
  {
    if i + 1 < n then i + 1 else 0
  }

  predicate LinkOk(next: seq<nat>, prev: seq<nat>, c: seq<nat>, i: int)
    requires 0 <= i < |c| && |next| == |prev| == NBUF + 1 && forall j :: 0 <= j < |c| ==> c[j] <= NBUF
  {
    next[c[i]] == c[Succ(|c|, i)] && prev[c[Succ(|c|, i)]] == c[i]
  }

  /** `c` is what following `next` from the head visits, and `prev` goes back. */
  predicate Ring(next: seq<nat>, prev: seq<nat>, c: seq<nat>) {
    && |next| == |prev| == NBUF + 1 && |c| >= 1 && c[0] == HEAD
    && (forall x :: 0 <= x <= NBUF ==> next[x] <= NBUF && prev[x] <= NBUF)
    && (forall i :: 0 <= i < |c| ==> c[i] <= NBUF)
    && Distinct(c)
    && (forall i :: 0 <= i < |c| ==> LinkOk(next, prev, c, i))
  }

  function InsertFirst(c: seq<nat>, b: nat): seq<nat>
    requires |c| >= 1
  {
    c[..1] + [b] + c[1..]
  }

  /** buf_insert_to_head: four pointer assignments. */
  lemma InsertKeepsRing(next: seq<nat>, prev: seq<nat>, c: seq<nat>, b: nat)
    requires Ring(next, prev, c) && b < NBUF && b !in c
    ensures var next1 := next[b := next[HEAD]];
            var prev1 := prev[b := HEAD][next[HEAD] := b];
            Ring(next1[HEAD := b], prev1, InsertFirst(c, b))
  {
    var next2 := next[b := next[HEAD]][HEAD := b];
    var prev2 := prev[b := HEAD][next[HEAD] := b];
    var c' := InsertFirst(c, b);
    assert LinkOk(next, prev, c, 0);
    assert forall i :: 1 <= i < |c| ==> c[i] != HEAD;
    forall i | 0 <= i < |c'| ensures LinkOk(next2, prev2, c', i) {
      if i >= 2 { assert LinkOk(next, prev, c, i - 1); }
    }
  }

  /** buf_unlinked on the node at position `p`. */
  lemma UnlinkKeepsRing(next: seq<nat>, prev: seq<nat>, c: seq<nat>, p: nat)
    requires Ring(next, prev, c) && 1 <= p < |c|
    ensures var b := c[p];
            Ring(next[prev[b] := next[b]], prev[next[b] := prev[b]], c[..p] + c[p + 1..])
  {
    var b := c[p];
    var c' := c[..p] + c[p + 1..];
    assert LinkOk(next, prev, c, p) && LinkOk(next, prev, c, p - 1);
    assert prev[b] == c[p - 1] && next[b] == c[Succ(|c|, p)];
    var next', prev' := next[prev[b] := next[b]], prev[next[b] := prev[b]];
    assert forall i :: 0 <= i < |c'| ==> c'[i] == c[if i < p then i else i + 1];
    forall i | 0 <= i < |c'| ensures LinkOk(next', prev', c', i) {
      var k := if i < p then i else i + 1;
      assert LinkOk(next, prev, c, k);
      assert c'[Succ(|c'|, i)] == if i == p - 1 then c[Succ(|c|, p)] else c[Succ(|c|, k)];
    }
  }

  // ------------------------------------------------------------------
  // Buffers and the logical disk
  // ------------------------------------------------------------------

  /** A block of a disk; disk 0 is the null pointer of an unused buffer. */
  datatype Key = Key(disk: nat, block: nat)

  datatype Buf = Buf(key: Key, refcnt: nat, valid: bool, dirty: bool, data: Block)

  type Store = Key -> Block

  function Put(disk: Store, k: Key, data: Block): Store {
    x => if x == k then data else disk(x)
  }

  /** The buffers together with the disks behind them. */
  datatype Pool = Pool(bufs: seq<Buf>, disk: Store)

  predicate Named(bufs: seq<Buf>, i: int, k: Key) {
    0 <= i < |bufs| && bufs[i].key == k && k.disk != 0
  }

  predicate Absent(bufs: seq<Buf>, k: Key) {
    forall j :: 0 <= j < |bufs| ==> !Named(bufs, j, k)
  }

  /** At most one buffer per disk block. */
  predicate Unique(bufs: seq<Buf>) {
    forall i, j :: 0 <= i < j < |bufs| && bufs[i].key == bufs[j].key ==> bufs[i].key.disk == 0
  }

  /** A buffer that nobody uses and that is not dirty agrees with the disk. */
  predicate Clean(b: Buf, disk: Store) {
    && (b.dirty ==> b.valid) && (b.refcnt > 0 || b.dirty ==> b.key.disk != 0)
    && (b.valid && !b.dirty && b.refcnt == 0 && b.key.disk != 0 ==> b.data == disk(b.key))
  }

  predicate Good(p: Pool) {
    Unique(p.bufs) && forall i :: 0 <= i < |p.bufs| ==> Clean(p.bufs[i], p.disk)
  }

  /** What the rest of the kernel sees: a valid buffer hides the disk. */
  ghost function Logical(p: Pool, k: Key): Block {
    if i :| Named(p.bufs, i, k) && p.bufs[i].valid then p.bufs[i].data else p.disk(k)
  }

  lemma LogicalIs(p: Pool, i: int, k: Key)
    requires Unique(p.bufs) && Named(p.bufs, i, k)
    ensures Logical(p, k) == if p.bufs[i].valid then p.bufs[i].data else p.disk(k)
  {
    forall j | Named(p.bufs, j, k) ensures j == i { }
  }

  // ------------------------------------------------------------------
  // The atomic steps of any number of tasks
  // ------------------------------------------------------------------

  /** What the kernel does to a buffer between two points where it can be
      interrupted: find it or recycle it (buf_get), read it from the disk
      (buf_read), change its data, mark it dirty (log_write, buf_write), write
      it to the disk (buf_write), give it back (buf_release). */
  datatype Step = Hit | Recycle(key: Key) | Fill | Edit(data: Block) | Mark | Flush | Drop

  /** What a task owes before it takes the step. */
  predicate Allowed(p: Pool, i: nat, s: Step) {
    && i < |p.bufs|
    && var b := p.bufs[i];
       match s
       case Hit => b.key.disk != 0
       case Recycle(k) => b.refcnt == 0 && !b.dirty && k.disk != 0 && Absent(p.bufs, k)
       case Fill => b.refcnt > 0 && !b.valid
       case Edit(_) => b.refcnt > 0 && b.valid
       case Mark => b.refcnt > 0 && b.valid
       case Flush => b.refcnt > 0 && b.dirty
       // The last user leaves what it changed either marked or written.
       case Drop => b.refcnt > 0 && (b.refcnt == 1 && b.valid && !b.dirty ==> b.data == p.disk(b.key))
  }

  function Apply(p: Pool, i: nat, s: Step): (r: Pool)
    requires i < |p.bufs|
    ensures |r.bufs| == |p.bufs|
  {
    var b := p.bufs[i];
    match s
    case Hit => Pool(p.bufs[i := b.(refcnt := b.refcnt + 1)], p.disk)
    case Recycle(k) => Pool(p.bufs[i := Buf(k, 1, false, false, b.data)], p.disk)
    case Fill => Pool(p.bufs[i := b.(valid := true, data := p.disk(b.key))], p.disk)
    case Edit(d) => Pool(p.bufs[i := b.(data := d)], p.disk)
    case Mark => Pool(p.bufs[i := b.(dirty := true)], p.disk)
    case Flush => Pool(p.bufs[i := b.(valid := true, dirty := false)], Put(p.disk, b.key, b.data))
    case Drop => Pool(p.bufs[i := b.(refcnt := if b.refcnt > 0 then b.refcnt - 1 else 0)], p.disk)
  }

  lemma StepGood(p: Pool, i: nat, s: Step)
    requires Good(p) && Allowed(p, i, s)
    ensures Good(Apply(p, i, s))
  {
    var q := Apply(p, i, s);
    assert Clean(p.bufs[i], p.disk);
    forall j | 0 <= j < |q.bufs| ensures Clean(q.bufs[j], q.disk) {
      assert Clean(p.bufs[j], p.disk);
    }
    forall j, l | 0 <= j < l < |q.bufs| && q.bufs[j].key == q.bufs[l].key ensures q.bufs[j].key.disk == 0 {
      assert s.Recycle? ==> !Named(p.bufs, l, s.key) && !Named(p.bufs, j, s.key);
    }
  }

  /** Only Edit changes the logical disk, at the one block it means to change. */
  lemma StepView(p: Pool, i: nat, s: Step, x: Key)
    requires Good(p) && Allowed(p, i, s)
    ensures Logical(Apply(p, i, s), x) ==
            if s.Edit? && x == p.bufs[i].key then s.data else Logical(p, x)
  {
    var q := Apply(p, i, s);
    StepGood(p, i, s);
    assert Clean(p.bufs[i], p.disk);
    if Named(p.bufs, i, x) {
      LogicalIs(p, i, x);
      if s.Recycle? {
        forall j ensures !Named(q.bufs, j, x) { assert !Named(p.bufs, i, s.key); }
      } else {
        LogicalIs(q, i, x);
      }
    } else if Named(q.bufs, i, x) {
      LogicalIs(q, i, x);
    } else if exists j :: Named(p.bufs, j, x) {
      var j :| Named(p.bufs, j, x);
      LogicalIs(p, j, x);
      LogicalIs(q, j, x);
    } else {
      forall j ensures !Named(q.bufs, j, x) { assert j == i || !Named(p.bufs, j, x); }
    }
  }

  // ------------------------------------------------------------------
  // Whole runs
  // ------------------------------------------------------------------

  type Run = seq<(nat, Step)>

  predicate Legal(p: Pool, run: Run)
    decreases |run|
  {
    run == [] || (Allowed(p, run[0].0, run[0].1) && Legal(Apply(p, run[0].0, run[0].1), run[1..]))
  }

  function After(p: Pool, run: Run): Pool
    requires Legal(p, run)
    decreases |run|
  {
    if run == [] then p else After(Apply(p, run[0].0, run[0].1), run[1..])
  }

  /** The edits of a run on a plain map of blocks, with no cache at all. */
  function Plain(m: Store, p: Pool, run: Run): Store
    requires Legal(p, run)
    decreases |run|
  {
    if run == [] then m else
    var (i, s) := run[0];
    Plain(if s.Edit? then Put(m, p.bufs[i].key, s.data) else m, Apply(p, i, s), run[1..])
  }

  /** Transparency: whatever tasks do, in whatever order, the cached disk is the
      plain disk. */
  lemma {:induction false} CacheIsTransparent(p: Pool, run: Run, m: Store)
    requires Good(p) && Legal(p, run) && forall x :: Logical(p, x) == m(x)
    ensures Good(After(p, run))
    ensures forall x :: Logical(After(p, run), x) == Plain(m, p, run)(x)
    decreases |run|
  {
    if run != [] {
      var (i, s) := run[0];
      var q := Apply(p, i, s);
      var m': Store := if s.Edit? then Put(m, p.bufs[i].key, s.data) else m;
      StepGood(p, i, s);
      forall x ensures Logical(q, x) == m'(x) { StepView(p, i, s, x); }
      CacheIsTransparent(q, run[1..], m');
    }
  }

  /** What a task reads from a filled buffer is the plain disk's block, and when
      every buffer is back and clean the disk itself is the plain disk. */
  lemma ReadsArePlain(p: Pool, run: Run, m: Store, k: Key)
    requires Good(p) && Legal(p, run) && forall x :: Logical(p, x) == m(x)
    ensures var q := After(p, run);
            && (forall i :: Named(q.bufs, i, k) && q.bufs[i].valid ==> q.bufs[i].data == Plain(m, p, run)(k))
            && ((forall i :: 0 <= i < |q.bufs| ==> q.bufs[i].refcnt == 0 && !q.bufs[i].dirty) ==>
                  q.disk(k) == Plain(m, p, run)(k))
  {
    CacheIsTransparent(p, run, m);
    var q := After(p, run);
    forall i | Named(q.bufs, i, k) && q.bufs[i].valid ensures q.bufs[i].data == Plain(m, p, run)(k) {
      LogicalIs(q, i, k);
    }
    if forall i :: 0 <= i < |q.bufs| ==> q.bufs[i].refcnt == 0 && !q.bufs[i].dirty {
      if i :| Named(q.bufs, i, k) {
        LogicalIs(q, i, k);
        assert Clean(q.bufs[i], q.disk);
      }
    }
  }

  // ------------------------------------------------------------------
  // The code
  // ------------------------------------------------------------------

  /** buf_get's test for a victim. */
  predicate Idle(b: Buf) {
    b.refcnt == 0 && !b.dirty
  }

  /** All buffers are on the list, the most recently released one first. */
  ghost predicate ByUse(c: seq<nat>, stamp: seq<nat>, clock: nat) {
    && |c| == NBUF + 1 && |stamp| == NBUF
    && (forall i :: 1 <= i < |c| ==> c[i] < NBUF && stamp[c[i]] <= clock)
    && (forall i, j :: 1 <= i < j < |c| ==> stamp[c[i]] > stamp[c[j]])
  }

  /** Forty-one different numbers up to forty: every buffer is on the list. */
  lemma OnList(c: seq<nat>, j: nat)
    requires |c| == NBUF + 1 && Distinct(c) && j <= NBUF && forall i :: 0 <= i < |c| ==> c[i] <= NBUF
    ensures j in c
  {
    var all, here := Below(NBUF + 1), Members(c);
    if j !in c {
      assert here <= all - {j};
      SubsetSize(here, all - {j});
    }
  }

  function Below(n: nat): (r: set<nat>)
    ensures |r| == n && forall x: nat :: x in r <==> x < n
  {
    if n == 0 then {} else Below(n - 1) + {n - 1}
  }

  function Members(c: seq<nat>): (r: set<nat>)
    requires Distinct(c)
    ensures |r| == |c| && forall x :: x in r <==> x in c
  {
    if c == [] then {} else Members(c[1..]) + {c[0]}
  }

  ghost predicate Without(c: seq<nat>, d: seq<nat>, p: nat, b: nat) {
    1 <= p < |c| && c[p] == b && d == c[..p] + c[p + 1..]
  }

  /** `d` is `c` with `b`, from position `p`, moved to the front. */
  ghost predicate Moved(c: seq<nat>, d: seq<nat>, p: nat, b: nat) {
    1 <= p < |c| && c[p] == b && d == [c[0], b] + c[1..p] + c[p + 1..]
  }

  lemma MovedByUse(c: seq<nat>, mid: seq<nat>, p: nat, b: nat, stamp: seq<nat>, clock: nat)
    requires ByUse(c, stamp, clock) && Without(c, mid, p, b) && Distinct(c) && b < NBUF
    ensures var d := InsertFirst(mid, b);
            Moved(c, d, p, b) && d[1] == b && ByUse(d, stamp[b := clock + 1], clock + 1)
  {
    var d := InsertFirst(mid, b);
    assert d == [c[0], b] + c[1..p] + c[p + 1..];
    forall i | 2 <= i < |d| ensures d[i] == c[if i <= p then i - 1 else i] && d[i] != b { }
  }

  class Cache {
    var bufs: seq<Buf>
    var next: seq<nat>
    var prev: seq<nat>
    var disk: Store
    ghost var c: seq<nat>
    ghost var stamp: seq<nat>  // when each buffer was last given back
    ghost var clock: nat

    ghost function Now(): Pool
      reads this
    {
      Pool(bufs, disk)
    }

    ghost predicate Listed()
      reads this
    {
      |bufs| == NBUF && Ring(next, prev, c) && ByUse(c, stamp, clock)
    }

    ghost predicate Valid()
      reads this
    {
      Listed() && Good(Now())
    }

    /** bio_init, on zeroed memory: every buffer is put on the list, none names a
        block, and the logical disk is the disk. */
    constructor (disk: Store)
      ensures Valid() && this.disk == disk
      ensures forall x :: Logical(Now(), x) == disk(x)
      ensures forall i :: 0 <= i < NBUF ==> Idle(bufs[i]) && !bufs[i].valid
    {
      this.disk := disk;
      bufs := seq(NBUF, _ => Buf(Key(0, 0), 0, false, false, ZeroBlock()));
      next, prev := seq(NBUF + 1, _ => HEAD), seq(NBUF + 1, _ => HEAD);
      c, stamp, clock := [HEAD], seq(NBUF, i requires 0 <= i => i), NBUF;
      new;
      assert LinkOk(next, prev, c, 0);
      for b := 0 to NBUF
        invariant bufs == seq(NBUF, _ => Buf(Key(0, 0), 0, false, false, ZeroBlock())) && this.disk == disk
        invariant stamp == seq(NBUF, i requires 0 <= i => i) && clock == NBUF
        invariant |c| == b + 1 && Ring(next, prev, c)
        invariant forall i :: 1 <= i < |c| ==> c[i] == b - i
      {
        InsertToHead(b);
      }
    }

    /** The first loop of buf_get: from the head forwards. */
    method FindCached(k: Key) returns (b: nat)
      requires Valid() && k.disk != 0
      ensures b <= NBUF
      ensures b < NBUF ==> Named(bufs, b, k)
      ensures b == HEAD ==> Absent(bufs, k)
    {
      b := next[HEAD];
      ghost var p := 1;
      assert LinkOk(next, prev, c, 0);
      while b != HEAD && bufs[b].key != k
        invariant 1 <= p <= |c| && b == if p < |c| then c[p] else HEAD
        invariant forall q :: 1 <= q < p ==> bufs[c[q]].key != k
        decreases |c| - p
      {
        assert LinkOk(next, prev, c, p);
        b, p := next[b], p + 1;
      }
      if b == HEAD {
        forall j | 0 <= j < NBUF ensures !Named(bufs, j, k) { OnList(c, j); }
      }
    }

    /** The second loop of buf_get: from the tail backwards. */
    method FindVictim() returns (b: nat)
      requires Valid()
      ensures b <= NBUF
      ensures b < NBUF ==> Idle(bufs[b])
      ensures b < NBUF ==> forall j :: 0 <= j < NBUF && Idle(bufs[j]) ==> stamp[b] <= stamp[j]
      ensures b == HEAD ==> forall j :: 0 <= j < NBUF ==> !Idle(bufs[j])
    {
      b := prev[HEAD];
      ghost var p := |c| - 1;
      assert LinkOk(next, prev, c, p);
      while b != HEAD && !Idle(bufs[b])
        invariant 0 <= p < |c| && b == c[p]
        invariant forall q :: p < q < |c| ==> !Idle(bufs[c[q]])
        decreases p
      {
        assert LinkOk(next, prev, c, p - 1);
        b, p := prev[b], p - 1;
      }
      forall j | 0 <= j < NBUF && Idle(bufs[j]) ensures b < NBUF && stamp[b] <= stamp[j] {
        OnList(c, j);
        var q :| 0 <= q < |c| && c[q] == j;
        assert q <= p;
      }
    }

    /** buf_get, up to where it waits for the buffer's semaphore: a hit, or the
        least recently released idle buffer, or the panic (None) exactly when the
        block is not cached and no buffer is idle. */
    method BufGet(k: Key) returns (r: Option<nat>)
      requires Valid() && k.disk != 0
      modifies this`bufs
      ensures Valid()
      ensures r.None? <==> Absent(old(bufs), k) && forall j :: 0 <= j < NBUF ==> !Idle(old(bufs)[j])
      ensures r.None? ==> bufs == old(bufs)
      ensures r.Some? && !Absent(old(bufs), k) ==>
                Allowed(old(Now()), r.value, Hit) && Now() == Apply(old(Now()), r.value, Hit)
      ensures r.Some? && Absent(old(bufs), k) ==>
                && Allowed(old(Now()), r.value, Recycle(k)) && Now() == Apply(old(Now()), r.value, Recycle(k))
                && forall j :: 0 <= j < NBUF && Idle(old(bufs)[j]) ==> stamp[r.value] <= stamp[j]
      ensures r.Some? ==> Named(bufs, r.value, k) && bufs[r.value].refcnt > 0
      ensures forall x :: Logical(Now(), x) == Logical(old(Now()), x)
    {
      ghost var p := Now();
      var b := FindCached(k);
      if b != HEAD {
        StepGood(p, b, Hit);
        forall x ensures Logical(Apply(p, b, Hit), x) == Logical(p, x) { StepView(p, b, Hit, x); }
        bufs := bufs[b := bufs[b].(refcnt := bufs[b].refcnt + 1)];
        return Some(b);
      }
      b := FindVictim();
      if b != HEAD {
        StepGood(p, b, Recycle(k));
        forall x ensures Logical(Apply(p, b, Recycle(k)), x) == Logical(p, x) { StepView(p, b, Recycle(k), x); }
        bufs := bufs[b := Buf(k, 1, false, false, bufs[b].data)];
        return Some(b);
      }
      return None;
    }

    /** iderw, as one atomic transfer. */
    method IdeRw(b: nat)
      requires Valid() && b < NBUF && bufs[b].refcnt > 0 && (bufs[b].valid ==> bufs[b].dirty)
      modifies this`bufs, this`disk
      ensures Valid()
      ensures Now() == Apply(old(Now()), b, if old(bufs)[b].dirty then Flush else Fill)
      ensures bufs[b].valid && !bufs[b].dirty && bufs[b].data == disk(bufs[b].key)
      ensures forall x :: Logical(Now(), x) == Logical(old(Now()), x)
    {
      ghost var p, s := Now(), if bufs[b].dirty then Flush else Fill;
      assert Clean(p.bufs[b], p.disk);
      StepGood(p, b, s);
      forall x ensures Logical(Apply(p, b, s), x) == Logical(p, x) { StepView(p, b, s, x); }
      if bufs[b].dirty {
        disk := Put(disk, bufs[b].key, bufs[b].data);
        bufs := bufs[b := bufs[b].(valid := true, dirty := false)];
      } else {
        bufs := bufs[b := bufs[b].(valid := true, data := disk(bufs[b].key))];
      }
    }

    /** buf_read hands out the logical block. */
    method BufRead(k: Key) returns (r: Option<nat>)
      requires Valid() && k.disk != 0
      modifies this`bufs, this`disk
      ensures Valid() && forall x :: Logical(Now(), x) == Logical(old(Now()), x)
      ensures r.Some? ==> Named(bufs, r.value, k) && bufs[r.value].refcnt > 0 && bufs[r.value].valid
      ensures r.Some? ==> bufs[r.value].data == Logical(old(Now()), k)
      ensures r.None? <==> Absent(old(bufs), k) && forall j :: 0 <= j < NBUF ==> !Idle(old(bufs)[j])
      ensures disk == old(disk)
    {
      r := BufGet(k);
      if r.Some? {
        assert Clean(Now().bufs[r.value], Now().disk);
        if !bufs[r.value].valid {
          IdeRw(r.value);
        }
        LogicalIs(Now(), r.value, k);
      }
    }

    /** buf_write makes the disk agree with the buffer. */
    method BufWrite(b: nat)
      requires Valid() && b < NBUF && bufs[b].refcnt > 0 && bufs[b].valid
      modifies this`bufs, this`disk
      ensures Valid() && forall x :: Logical(Now(), x) == Logical(old(Now()), x)
      ensures disk == Put(old(disk), bufs[b].key, bufs[b].data) && !bufs[b].dirty
      ensures bufs == old(bufs)[b := bufs[b]] && bufs[b].data == old(bufs)[b].data && bufs[b].key == old(bufs)[b].key
    {
      ghost var p := Now();
      StepGood(p, b, Mark);
      forall x ensures Logical(Apply(p, b, Mark), x) == Logical(p, x) { StepView(p, b, Mark, x); }
      bufs := bufs[b := bufs[b].(dirty := true)];
      IdeRw(b);
    }

    /** buf_unlinked */
    method Unlink(b: nat)
      requires Ring(next, prev, c) && b < NBUF && b in c
      modifies this`next, this`prev, this`c
      ensures Ring(next, prev, c) && b !in c
      ensures exists p: nat :: Without(old(c), c, p, b)
    {
      ghost var p: nat :| p < |c| && c[p] == b;
      UnlinkKeepsRing(next, prev, c, p);
      prev := prev[next[b] := prev[b]];
      next := next[prev[b] := next[b]];
      c := c[..p] + c[p + 1..];
      assert Without(old(c), c, p, b);
    }

    /** buf_insert_to_head */
    method InsertToHead(b: nat)
      requires Ring(next, prev, c) && b < NBUF && b !in c
      modifies this`next, this`prev, this`c
      ensures Ring(next, prev, c) && c == InsertFirst(old(c), b)
    {
      InsertKeepsRing(next, prev, c, b);
      next := next[b := next[HEAD]];
      prev := prev[b := HEAD];
      prev := prev[next[HEAD] := b];
      next := next[HEAD := b];
      c := InsertFirst(c, b);
    }

    method ToFront(b: nat)
      requires Listed() && b < NBUF
      modifies this`next, this`prev, this`c, this`stamp, this`clock
      ensures Listed() && c[1] == b && exists p: nat :: Moved(old(c), c, p, b)
    {
      hide LinkOk;
      OnList(c, b);
      Unlink(b);
      ghost var p: nat :| Without(old(c), c, p, b);
      MovedByUse(old(c), c, p, b, stamp, clock);
      InsertToHead(b);
      clock := clock + 1;
      stamp := stamp[b := clock];
    }

    /** buf_release: the last user moves the buffer to the front of the list. */
    method BufRelease(b: nat)
      requires Valid() && Allowed(Now(), b, Drop)
      modifies this`bufs, this`next, this`prev, this`c, this`stamp, this`clock
      ensures Valid() && Now() == Apply(old(Now()), b, Drop)
      ensures forall x :: Logical(Now(), x) == Logical(old(Now()), x)
      ensures bufs[b].refcnt > 0 ==> c == old(c)
      ensures bufs[b].refcnt == 0 ==> c[1] == b && exists p: nat :: Moved(old(c), c, p, b)
    {
      hide ByUse, Good, Logical, Moved, Without, LinkOk;
      ghost var p := Now();
      StepGood(p, b, Drop);
      forall x ensures Logical(Apply(p, b, Drop), x) == Logical(p, x) { StepView(p, b, Drop, x); }
      bufs := bufs[b := bufs[b].(refcnt := bufs[b].refcnt - 1)];
      if bufs[b].refcnt == 0 {
        ToFront(b);
      }
    }
  }
}
