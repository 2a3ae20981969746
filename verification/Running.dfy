/** The kernel at work: file system calls, one after the other, each a legal operation
    of the log that commits, with power failures in between.  What the log needs to
    know of a call is proved from the call's own contract. */
module Running {
  import opened Blocks
  import opened Common
  import opened Volume
  import opened FileSystem
  import Tree
  import Namei
  import opened FsOps
  import opened DiskFormat
  import opened Images
  import P = LogProtocol
  import opened Journal
  import opened JournalSystem
  import opened CrashSafety

  // ------------------------------------------------------------------
  // Every healthy volume can be stored
  // ------------------------------------------------------------------

  lemma HealthyInode(v: Vol, g: Geo, k: Book, i: nat)
    requires Namei.World(v, g) && Owned(v, g, k) && Settled(v, g, k) && i < g.ninodes < 0x1_0000_0000
    ensures i < |v.tab| && Storable(v.tab[i])
  {
    hide Owned, Settled, Tree.Ok, Namei.DirSizes, Fits, Namei.Abs;
    assert Namei.FieldOk(v.tab[i]);
    if v.tab[i].typ != NONE {
      SizeBound(v, g, k, i);
      Namei.NodeType(v, g, i);
      Tree.ZeroFree(Namei.Abs(v, g));
      Tree.LinkBound(Namei.Abs(v, g), i);
    }
  }

  lemma HealthyStorable(v: Vol, g: Geo)
    requires Healthy(v, g) && g.ninodes < 0x1_0000_0000
    ensures Shape(v, g) && AllStorable(v.tab)
  {
    hide Owned, Settled, Tree.Ok, Storable, Namei.DirSizes, Namei.FieldsOk;
    var k :| Owned(v, g, k) && Settled(v, g, k);
    forall i: nat | i < |v.tab| ensures Storable(v.tab[i]) { HealthyInode(v, g, k, i); }
  }

  // ------------------------------------------------------------------
  // The writes of a call
  // ------------------------------------------------------------------

  ghost function Listed(s: set<nat>): (q: seq<nat>)
    ensures forall x :: x in q <==> x in s
  {
    if s == {} then [] else var x :| x in s; [x] + Listed(s - {x})
  }

  function WritesFor(g: Geo, w: Vol, q: seq<nat>): seq<Write>
    requires Shape(w, g) && AllStorable(w.tab)
  {
    if q == [] then [] else [Write(q[0], BlockFor(g, w, q[0]))] + WritesFor(g, w, q[1..])
  }

  lemma {:induction false} PatchedFor(d: Disk, g: Geo, w: Vol, q: seq<nat>, x: nat)
    requires Shape(w, g) && AllStorable(w.tab) && x < |d|
    ensures Patched(d, WritesFor(g, w, q))[x] == if x in q then BlockFor(g, w, x) else d[x]
    decreases |q|
  {
    hide BlockFor, Shape, AllStorable;
    if q != [] {
      var ws := WritesFor(g, w, q);
      assert ws[0] == Write(q[0], BlockFor(g, w, q[0])) && ws[1..] == WritesFor(g, w, q[1..]);
      var e := if q[0] < |d| then d[q[0] := BlockFor(g, w, q[0])] else d;
      PatchedFor(e, g, w, q[1..], x);
      assert x in q <==> x == q[0] || x in q[1..];
    }
  }

  /** One write for each block that the call has logged. */
  ghost function CallWrites(g: Geo, w: Vol, dirty: set<nat>): seq<Write>
    requires Shape(w, g) && AllStorable(w.tab)
  {
    WritesFor(g, w, Listed(dirty))
  }

  lemma CallDelivers(d: Disk, g: Geo, ls: nat, v: Vol, w: Vol, dirty: set<nat>)
    requires Laid(g, ls, |d|) && Represents(d, g, v) && FsOps.Step(g, v, w, dirty) && g.ninodes < 0x1_0000_0000
    ensures Shape(w, g) && AllStorable(w.tab) && Delivers(d, Patched(d, CallWrites(g, w, dirty)), g, w, dirty)
    ensures Represents(Patched(d, CallWrites(g, w, dirty)), g, w)
  {
    hide Healthy, StoresAt, BlockFor, Laid, AllStorable, Shape, Patched, Listed, WritesFor, Follows;
    HealthyStorable(w, g);
    var e := Patched(d, CallWrites(g, w, dirty));
    forall x: nat | x < |d| ensures e[x] == (if x in dirty then BlockFor(g, w, x) else d[x]) { PatchedFor(d, g, w, Listed(dirty), x); }
    forall x: nat | x < |d| ensures StoresAt(e[x], x, g, w) {
      if x in dirty { BlockForStores(g, ls, |d|, w, x); } else { UnloggedBlock(d[x], x, g, v, w, dirty); }
    }
  }

  // ------------------------------------------------------------------
  // They are a legal operation of the log
  // ------------------------------------------------------------------

  /** Task `t` is about to begin an operation. */
  predicate Idle(s: Sys, t: nat) {
    t < |s.p.tasks| && (s.p.tasks[t].Out? || s.p.tasks[t].Woken?)
  }

  /** Task `t` is inside an operation and stays within `room`. */
  predicate Inside(s: Sys, t: nat, room: set<nat>) {
    s.mode.Up? && t < |s.p.tasks| && s.p.tasks[t].InOp? && s.p.tasks[t].logged <= room
  }

  lemma UpSizes(s: Sys, ls: nat, d0: Disk)
    requires Inv(s, ls, d0) && s.mode.Up?
    ensures |s.disk| == |s.durable| && forall i :: 0 <= i < |s.p.v.lh| ==> s.p.v.lh[i] < |s.disk|
  {
    hide ApplyGroups, Logical, IdInv, GoodDisk;
  }

  lemma EnterStep(s: Sys, ls: nat, d0: Disk, t: nat)
    requires Inv(s, ls, d0) && Quiet(s) && Idle(s, t)
    ensures Enabled(s, ls, Begin(t))
    ensures var z := Next(s, ls, Begin(t));
            && Inv(z, ls, d0) && Inside(z, t, {}) && z.p.v.outstanding == 1
            && z.durable == s.durable && z.disk == s.disk && z.pending == s.pending
  {
    hide Inv, P.Inv;
    BeginEnters(s, ls, d0, t);
    QuietIsDurable(s, ls, d0);
    P.BeginEffect(s.p.v, t);
  }

  lemma RoomLeft(logged: set<nat>, room: set<nat>, b: nat)
    requires logged <= room && b in room && |room| <= P.MAX_OPEN_BLOCKS
    ensures b in logged || |logged| < P.MAX_OPEN_BLOCKS
  {
    if b !in logged { SubsetSize(logged + {b}, room); }
  }

  lemma WriteStep(s: Sys, ls: nat, d0: Disk, t: nat, w: Write, room: set<nat>)
    requires Inv(s, ls, d0) && Inside(s, t, room) && w.at in room && |room| <= P.MAX_OPEN_BLOCKS && Home(s.disk, ls, w.at)
    ensures var e := Modify(t, w.at, w.data);
            && Enabled(s, ls, e)
            && var z := Next(s, ls, e);
               Inv(z, ls, d0) && Inside(z, t, room) && z.disk == s.disk
  {
    hide Inv;
    RoomLeft(s.p.tasks[t].logged, room, w.at);
    ModifyStep(s, ls, d0, t, w);
  }

  lemma {:induction false} WritesLegal(s: Sys, ls: nat, d0: Disk, t: nat, ws: seq<Write>, room: set<nat>)
    requires Inv(s, ls, d0) && Inside(s, t, room) && |room| <= P.MAX_OPEN_BLOCKS
    requires forall i :: 0 <= i < |ws| ==> ws[i].at in room && Home(s.disk, ls, ws[i].at)
    ensures Legal(s, ls, Modifies(t, ws)) && Inside(After(s, ls, Modifies(t, ws)), t, room)
    decreases |ws|
  {
    hide Inv, Inside, Next, Enabled, Home;
    if ws != [] {
      WriteStep(s, ls, d0, t, ws[0], room);
      var es := Modifies(t, ws);
      assert es[0] == Modify(t, ws[0].at, ws[0].data) && es[1..] == Modifies(t, ws[1..]);
      WritesLegal(Next(s, ls, es[0]), ls, d0, t, ws[1..], room);
    }
  }

  lemma {:induction false} LegalAppend(s: Sys, ls: nat, a: seq<Event>, b: seq<Event>)
    requires Legal(s, ls, a) && Legal(After(s, ls, a), ls, b)
    ensures Legal(s, ls, a + b) && After(s, ls, a + b) == After(After(s, ls, a), ls, b)
    decreases |a|
  {
    hide Next, Enabled;
    if a == [] {
      assert a + b == b;
    } else {
      assert (a + b)[0] == a[0] && (a + b)[1..] == a[1..] + b;
      LegalAppend(Next(s, ls, a[0]), ls, a[1..], b);
    }
  }

  lemma LegalOne(s: Sys, ls: nat, e: Event)
    requires Enabled(s, ls, e)
    ensures Legal(s, ls, [e]) && After(s, ls, [e]) == Next(s, ls, e)
  {
    hide Enabled, Next;
    assert [e][1..] == [];
  }

  /** The state at the end of an operation whose writes have been made: the commit has
      begun, and what is visible is the disk with these writes. */
  ghost predicate Ended(s: Sys, z: Sys, ls: nat, d0: Disk, t: nat, ws: seq<Write>) {
    && Inv(z, ls, d0) && z.mode.Committing? && z.durable == s.durable && Visible(z) == Patched(s.durable, ws)
    && t < |z.p.tasks| && z.p.tasks[t].Commits?
  }

  lemma LeaveStep(s: Sys, ls: nat, d0: Disk, t: nat, room: set<nat>)
    requires Inv(s, ls, d0) && Inside(s, t, room) && s.p.v.outstanding == 1
    ensures Enabled(s, ls, End(t))
    ensures var z := Next(s, ls, End(t));
            && Inv(z, ls, d0) && z.mode.Committing? && z.durable == s.durable && z.pending == s.pending
            && t < |z.p.tasks| && z.p.tasks[t].Commits?
  {
    hide Inv;
    UpSizes(s, ls, d0);
    EndStep(s, ls, d0, t);
  }

  /** From a quiet machine: an operation that makes these writes runs to its end. */
  lemma WholeRuns(s: Sys, ls: nat, d0: Disk, t: nat, ws: seq<Write>, room: set<nat>)
    requires Inv(s, ls, d0) && Quiet(s) && Idle(s, t) && |room| <= P.MAX_OPEN_BLOCKS
    requires forall i :: 0 <= i < |ws| ==> ws[i].at in room && Home(s.durable, ls, ws[i].at)
    ensures var es := Events(Whole(t, ws)); Legal(s, ls, es) && Ended(s, After(s, ls, es), ls, d0, t, ws)
  {
    hide Inv, Next, Enabled, Modifies, Patched, Legal, After;
    UpSizes(s, ls, d0);
    QuietIsDurable(s, ls, d0);
    EnterStep(s, ls, d0, t);
    var a := Next(s, ls, Begin(t));
    assert forall i :: 0 <= i < |ws| ==> Home(a.disk, ls, ws[i].at);
    WritesLegal(a, ls, d0, t, ws, room);
    assert Modifies(t, ws) + [] == Modifies(t, ws);
    ModifiesRun(a, ls, d0, t, ws, []);
    var b := After(a, ls, Modifies(t, ws));
    LeaveStep(b, ls, d0, t, room);
    LegalOne(b, ls, End(t));
    LegalAppend(a, ls, Modifies(t, ws), [End(t)]);
    LegalOne(s, ls, Begin(t));
    LegalAppend(s, ls, [Begin(t)], Modifies(t, ws) + [End(t)]);
  }

  /** The blocks that the writes name. */
  ghost function Ats(ws: seq<Write>): set<nat> {
    set i | 0 <= i < |ws| :: ws[i].at
  }

  lemma {:induction false} WritesForAts(g: Geo, w: Vol, q: seq<nat>)
    requires Shape(w, g) && AllStorable(w.tab)
    ensures |WritesFor(g, w, q)| == |q| && forall i :: 0 <= i < |q| ==> WritesFor(g, w, q)[i].at == q[i]
    decreases |q|
  {
    hide BlockFor, Shape, AllStorable;
    if q != [] { WritesForAts(g, w, q[1..]); }
  }

  lemma CallAts(g: Geo, w: Vol, dirty: set<nat>)
    requires Shape(w, g) && AllStorable(w.tab)
    ensures Ats(CallWrites(g, w, dirty)) == dirty
    ensures forall i :: 0 <= i < |CallWrites(g, w, dirty)| ==> CallWrites(g, w, dirty)[i].at in dirty
  {
    hide WritesFor, Shape, AllStorable, Listed;
    var q := Listed(dirty);
    WritesForAts(g, w, q);
    forall x | x in dirty ensures x in Ats(CallWrites(g, w, dirty)) {
      var i :| 0 <= i < |q| && q[i] == x;
      assert CallWrites(g, w, dirty)[i].at == x;
    }
  }

  /** A call that logs at most ten blocks is a legal operation of the log, and when it
      has run the disk that reads see holds the call's result. */
  lemma CallIsJob(s: Sys, ls: nat, d0: Disk, g: Geo, t: nat, v: Vol, w: Vol, dirty: set<nat>)
    requires Inv(s, ls, d0) && Quiet(s) && Idle(s, t) && Laid(g, ls, |s.durable|) && g.ninodes < 0x1_0000_0000
    requires Represents(s.durable, g, v) && FsOps.Step(g, v, w, dirty) && |dirty| <= P.MAX_OPEN_BLOCKS
    ensures Shape(w, g) && AllStorable(w.tab)
    ensures var ws := CallWrites(g, w, dirty);
            && JobOk(s, ls, g, Whole(t, ws)) && Represents(Patched(s.durable, ws), g, w)
            && Ended(s, After(s, ls, Events(Whole(t, ws))), ls, d0, t, ws)
  {
    hide Inv, Healthy, Laid, Represents, Patched, Events, Legal, After, Ended, AllStorable, Shape, CallWrites, Home, StoresAt;
    CallDelivers(s.durable, g, ls, v, w, dirty);
    CallAts(g, w, dirty);
    forall x | x in dirty ensures Home(s.durable, ls, x) { HomeBlocksAreHome(s.durable, g, ls, x); }
    WholeRuns(s, ls, d0, t, CallWrites(g, w, dirty), dirty);
  }

  // ------------------------------------------------------------------
  // And only those are
  // ------------------------------------------------------------------

  lemma {:induction false} LoggedAts(s: Sys, ls: nat, d0: Disk, t: nat, ws: seq<Write>, more: seq<Event>)
    requires Inv(s, ls, d0) && t < |s.p.tasks| && s.p.tasks[t].InOp? && Legal(s, ls, Modifies(t, ws) + more)
    ensures |s.p.tasks[t].logged + Ats(ws)| <= P.MAX_OPEN_BLOCKS
    decreases |ws|
  {
    hide Inv, Next, Enabled, Ats;
    if ws == [] {
      LoggedTen(s, ls, d0, t);
      assert Ats(ws) == {} by { NoAts(ws); }
      assert s.p.tasks[t].logged + Ats(ws) == s.p.tasks[t].logged;
    } else {
      var es := Modifies(t, ws) + more;
      assert es[0] == Modify(t, ws[0].at, ws[0].data) && es[1..] == Modifies(t, ws[1..]) + more;
      ModifyStep(s, ls, d0, t, ws[0]);
      ModifyLogs(s, ls, t, ws[0]);
      var z := Next(s, ls, es[0]);
      LoggedAts(z, ls, d0, t, ws[1..], more);
      AtsCons(ws);
      assert s.p.tasks[t].logged + Ats(ws) == z.p.tasks[t].logged + Ats(ws[1..]);
    }
  }

  lemma ModifyLogs(s: Sys, ls: nat, t: nat, w: Write)
    requires Enabled(s, ls, Modify(t, w.at, w.data))
    ensures t < |s.p.tasks| && s.p.tasks[t].InOp?
    ensures var z := Next(s, ls, Modify(t, w.at, w.data));
            t < |z.p.tasks| && z.p.tasks[t].InOp? && z.p.tasks[t].logged == s.p.tasks[t].logged + {w.at}
  {
  }

  lemma NoAts(ws: seq<Write>)
    requires ws == []
    ensures Ats(ws) == {}
  {
  }

  lemma AtsCons(ws: seq<Write>)
    requires ws != []
    ensures Ats(ws) == {ws[0].at} + Ats(ws[1..])
  {
    forall x | x in Ats(ws) ensures x in {ws[0].at} + Ats(ws[1..]) {
      var i :| 0 <= i < |ws| && ws[i].at == x;
      if i > 0 { assert ws[1..][i - 1].at == x; }
    }
    forall x | x in Ats(ws[1..]) ensures x in Ats(ws) {
      var i :| 0 <= i < |ws| - 1 && ws[1..][i].at == x;
      assert ws[i + 1].at == x;
    }
  }

  lemma LoggedTen(s: Sys, ls: nat, d0: Disk, t: nat)
    requires Inv(s, ls, d0) && t < |s.p.tasks| && s.p.tasks[t].InOp?
    ensures |s.p.tasks[t].logged| <= P.MAX_OPEN_BLOCKS
  {
    hide ApplyGroups, ModeInv, IdInv, SameHome, P.SpaceInv, P.CommitInv, P.QueueInv, P.NoLostWakeup;
  }

  /** An operation that logs exactly these blocks of the volume is legal for some
      contents if and only if they are at most ten. */
  lemma ReservationExactly(s: Sys, ls: nat, d0: Disk, g: Geo, t: nat, dirty: set<nat>)
    requires Inv(s, ls, d0) && Quiet(s) && Idle(s, t) && Laid(g, ls, |s.durable|)
    requires forall x :: x in dirty ==> HomeBlock(g, x)
    ensures (exists ws :: Ats(ws) == dirty && Legal(s, ls, Events(Whole(t, ws)))) <==> |dirty| <= P.MAX_OPEN_BLOCKS
  {
    hide Inv, Next, Enabled, Legal, Laid, Home, Ended, HomeBlock;
    if ws :| Ats(ws) == dirty && Legal(s, ls, Events(Whole(t, ws))) { LegalLogsTen(s, ls, d0, t, ws); }
    if |dirty| <= P.MAX_OPEN_BLOCKS {
      forall x | x in dirty ensures Home(s.durable, ls, x) { HomeBlocksAreHome(s.durable, g, ls, x); }
      var ws := ZeroWrites(Listed(dirty));
      assert Ats(ws) == dirty by { ZeroAts(dirty); }
      forall i | 0 <= i < |ws| ensures ws[i].at in dirty { assert ws[i].at in Ats(ws); }
      WholeRuns(s, ls, d0, t, ws, dirty);
    }
  }

  function ZeroWrites(q: seq<nat>): (ws: seq<Write>)
    ensures |ws| == |q| && forall i :: 0 <= i < |q| ==> ws[i].at == q[i]
  {
    if q == [] then [] else [Write(q[0], ZeroBlock())] + ZeroWrites(q[1..])
  }

  lemma ZeroAts(dirty: set<nat>)
    ensures Ats(ZeroWrites(Listed(dirty))) == dirty
  {
    hide ZeroWrites, Listed;
    var q := Listed(dirty);
    forall x | x in dirty ensures x in Ats(ZeroWrites(q)) {
      var i :| 0 <= i < |q| && q[i] == x;
      assert ZeroWrites(q)[i].at == x;
    }
  }

  lemma LegalLogsTen(s: Sys, ls: nat, d0: Disk, t: nat, ws: seq<Write>)
    requires Inv(s, ls, d0) && Quiet(s) && Idle(s, t) && Legal(s, ls, Events(Whole(t, ws)))
    ensures |Ats(ws)| <= P.MAX_OPEN_BLOCKS
  {
    hide Inv, Next, Enabled, Modifies;
    var es := Events(Whole(t, ws));
    assert es[0] == Begin(t) && es[1..] == Modifies(t, ws) + [End(t)];
    EnterStep(s, ls, d0, t);
    var a := Next(s, ls, Begin(t));
    LoggedAts(a, ls, d0, t, ws, [End(t)]);
    assert a.p.tasks[t].logged + Ats(ws) == Ats(ws);
  }

  // ------------------------------------------------------------------
  // Commit and recovery run to their ends
  // ------------------------------------------------------------------

  function Times(n: nat, e: Event): seq<Event> {
    if n == 0 then [] else [e] + Times(n - 1, e)
  }

  lemma LegalCons(s: Sys, ls: nat, e: Event, es: seq<Event>)
    requires Enabled(s, ls, e) && Legal(Next(s, ls, e), ls, es)
    ensures Legal(s, ls, [e] + es) && After(s, ls, [e] + es) == After(Next(s, ls, e), ls, es)
  {
    hide Enabled, Next;
    assert ([e] + es)[0] == e && ([e] + es)[1..] == es;
  }

  lemma CommitShaped(s: Sys, ls: nat, d0: Disk)
    requires Inv(s, ls, d0) && s.mode.Committing?
    ensures CommitShape(s, ls) && s.mode.pos <= |Writes(s, ls)|
    ensures s.mode.pos == |Writes(s, ls)| ==> s.pending == []
    ensures s.p.v.outstanding == 0 && |Visible(s)| == |s.durable|
  {
    hide ApplyGroups, IdInv, Apply, Overlaid, PutHead, P.SpaceInv, P.QueueInv, P.NoLostWakeup, P.OpInv;
  }

  lemma CommitIoStep(s: Sys, ls: nat, d0: Disk, t: nat)
    requires Inv(s, ls, d0) && s.mode.Committing? && Enabled(s, ls, CommitIo)
    ensures var z := Next(s, ls, CommitIo);
            && Inv(z, ls, d0) && z.mode.Committing? && z.p.tasks == s.p.tasks && SameHome(Visible(z), Visible(s), ls)
            && CommitShape(z, ls) && |Writes(z, ls)| == |Writes(s, ls)| && z.mode.pos == s.mode.pos + 1
  {
    InvNext(s, ls, d0, CommitIo);
    hide P.Inv, ApplyGroups, IdInv, Apply, GoodDisk, ReadHead, Overlaid, CommitWrites;
    var z := Next(s, ls, CommitIo);
    if s.mode.pos == |s.mode.lh| { assert Visible(z) == z.durable; }
  }

  lemma FinishStep(s: Sys, ls: nat, d0: Disk, t: nat)
    requires Inv(s, ls, d0) && s.mode.Committing? && CommitShape(s, ls) && s.mode.pos == |Writes(s, ls)|
    requires t < |s.p.tasks| && s.p.tasks[t].Commits?
    ensures Enabled(s, ls, Finish(t))
    ensures var z := Next(s, ls, Finish(t));
            Inv(z, ls, d0) && Quiet(z) && Idle(z, t) && SameHome(z.durable, Visible(s), ls)
  {
    hide Inv, CommitWrites;
    CommitShaped(s, ls, d0);
    InvNext(s, ls, d0, Finish(t));
  }

  /** The commit that an operation has left behind. */
  lemma {:induction false} CommitRuns(s: Sys, ls: nat, d0: Disk, t: nat)
    requires Inv(s, ls, d0) && s.mode.Committing? && t < |s.p.tasks| && s.p.tasks[t].Commits?
    ensures CommitShape(s, ls) && s.mode.pos <= |Writes(s, ls)|
    ensures var es := Times(|Writes(s, ls)| - s.mode.pos, CommitIo) + [Finish(t)];
            && Legal(s, ls, es)
            && var z := After(s, ls, es);
               Inv(z, ls, d0) && Quiet(z) && Idle(z, t) && SameHome(z.durable, Visible(s), ls)
    decreases if CommitShape(s, ls) then |Writes(s, ls)| - s.mode.pos else 0
  {
    hide Inv, Next, Writes, CommitShape, Legal, After, Quiet, Idle, SameHome, Visible;
    CommitShaped(s, ls, d0);
    var n := |Writes(s, ls)| - s.mode.pos;
    if n == 0 {
      FinishStep(s, ls, d0, t);
      LegalOne(s, ls, Finish(t));
      assert Times(0, CommitIo) + [Finish(t)] == [Finish(t)];
    } else {
      CommitIoStep(s, ls, d0, t);
      var z := Next(s, ls, CommitIo);
      CommitRuns(z, ls, d0, t);
      var es := Times(n - 1, CommitIo) + [Finish(t)];
      LegalCons(s, ls, CommitIo, es);
      assert Times(n, CommitIo) + [Finish(t)] == [CommitIo] + es;
      SameHomeTrans(After(z, ls, es).durable, Visible(z), Visible(s), ls);
    }
  }

  lemma RecoverShaped(s: Sys, ls: nat, d0: Disk)
    requires Inv(s, ls, d0) && s.mode.Recovering?
    ensures GoodDisk(s.mode.start, ls) && s.mode.pos <= |RecoverWrites(s.mode.start, ls)| && s.p.v == P.BootView
  {
    hide P.Inv, ApplyGroups, IdInv, Apply, RecoverWrites, Healed;
  }

  /** Recovery, from wherever it stands. */
  lemma {:induction false} RecoveryRuns(s: Sys, ls: nat, d0: Disk)
    requires Inv(s, ls, d0) && s.mode.Recovering?
    ensures GoodDisk(s.mode.start, ls) && s.mode.pos <= |RecoverWrites(s.mode.start, ls)|
    ensures var es := Times(|RecoverWrites(s.mode.start, ls)| - s.mode.pos, RecoverIo) + [Restart];
            && Legal(s, ls, es)
            && var z := After(s, ls, es);
               Inv(z, ls, d0) && Quiet(z) && z.p.tasks == s.p.tasks && z.durable == s.durable
    decreases if GoodDisk(s.mode.start, ls) then |RecoverWrites(s.mode.start, ls)| - s.mode.pos else 0
  {
    hide Inv, Legal, After, GoodDisk, RecoverWrites;
    RecoverShaped(s, ls, d0);
    var n := |RecoverWrites(s.mode.start, ls)| - s.mode.pos;
    if n == 0 {
      InvNext(s, ls, d0, Restart);
      LegalOne(s, ls, Restart);
      assert Times(0, RecoverIo) + [Restart] == [Restart];
    } else {
      InvNext(s, ls, d0, RecoverIo);
      var z := Next(s, ls, RecoverIo);
      RecoveryRuns(z, ls, d0);
      var es := Times(n - 1, RecoverIo) + [Restart];
      LegalCons(s, ls, RecoverIo, es);
      assert Times(n, RecoverIo) + [Restart] == [RecoverIo] + es;
    }
  }

  // ------------------------------------------------------------------
  // Groups end healthy
  // ------------------------------------------------------------------

  predicate NoEnd(es: seq<Event>) {
    forall i :: 0 <= i < |es| ==> !es[i].End?
  }

  lemma {:induction false} NoEndHealthy(s: Sys, ls: nat, g: Geo, es: seq<Event>)
    requires Legal(s, ls, es) && NoEnd(es)
    ensures EndsHealthy(s, ls, g, es)
    decreases |es|
  {
    hide Next, Enabled;
    if es != [] { NoEndHealthy(Next(s, ls, es[0]), ls, g, es[1..]); }
  }

  lemma {:induction false} TimesNoEnd(n: nat, e: Event, f: Event)
    requires !e.End? && !f.End?
    ensures NoEnd(Times(n, e) + [f])
  {
    if n > 0 {
      TimesNoEnd(n - 1, e, f);
      assert Times(n, e) + [f] == [e] + (Times(n - 1, e) + [f]);
    }
  }

  lemma {:induction false} ModifiesNoEnd(t: nat, ws: seq<Write>)
    ensures NoEnd([Begin(t)] + Modifies(t, ws)) && NoEnd(Modifies(t, ws))
    decreases |ws|
  {
    if ws != [] { ModifiesNoEnd(t, ws[1..]); }
  }

  lemma {:induction false} EndsAppend(s: Sys, ls: nat, g: Geo, a: seq<Event>, b: seq<Event>)
    requires Legal(s, ls, a) && EndsHealthy(s, ls, g, a) && Legal(After(s, ls, a), ls, b) && EndsHealthy(After(s, ls, a), ls, g, b)
    ensures Legal(s, ls, a + b) && EndsHealthy(s, ls, g, a + b)
    decreases |a|
  {
    hide Next, Enabled, HoldsHealthy, Visible;
    LegalAppend(s, ls, a, b);
    if a == [] {
      assert a + b == b;
    } else {
      assert (a + b)[0] == a[0] && (a + b)[1..] == a[1..] + b;
      EndsAppend(Next(s, ls, a[0]), ls, g, a[1..], b);
    }
  }

  lemma {:induction false} EndsPrefix(s: Sys, ls: nat, g: Geo, es: seq<Event>, n: nat)
    requires Legal(s, ls, es) && EndsHealthy(s, ls, g, es) && n <= |es|
    ensures Legal(s, ls, es[..n]) && EndsHealthy(s, ls, g, es[..n])
    decreases n
  {
    hide Next, Enabled, HoldsHealthy, Visible;
    if n > 0 {
      assert es[..n][0] == es[0] && es[..n][1..] == es[1..][..n - 1];
      EndsPrefix(Next(s, ls, es[0]), ls, g, es[1..], n - 1);
    }
  }

  /** Power fails after any number of the events of such a run, and recovery is cut
      short any number of times: the disk recovers to a healthy volume. */
  lemma AnyMomentSurvives(s: Sys, ls: nat, d0: Disk, g: Geo, es: seq<Event>, n: nat, stops: seq<nat>)
    requires Start(s, ls, d0) && Laid(g, ls, |d0|) && HoldsHealthy(d0, g) && Legal(s, ls, es) && EndsHealthy(s, ls, g, es) && n <= |es|
    ensures Legal(s, ls, es[..n])
    ensures var e := Interrupted(After(s, ls, es[..n]).disk, ls, stops);
            GoodDisk(e, ls) && HoldsHealthy(Apply(e, RecoverWrites(e, ls)), g)
  {
    hide Legal, After, EndsHealthy, GoodDisk, Apply, RecoverWrites, Interrupted, Start, HoldsHealthy, Laid;
    EndsPrefix(s, ls, g, es, n);
    GroupsSurvive(s, ls, d0, g, es[..n], stops);
  }

  lemma {:induction false} LegalSplit(s: Sys, ls: nat, a: seq<Event>, b: seq<Event>)
    requires Legal(s, ls, a + b)
    ensures Legal(s, ls, a) && Legal(After(s, ls, a), ls, b) && After(s, ls, a + b) == After(After(s, ls, a), ls, b)
    decreases |a|
  {
    hide Next, Enabled;
    if a == [] {
      assert a + b == b;
    } else {
      assert (a + b)[0] == a[0] && (a + b)[1..] == a[1..] + b;
      LegalSplit(Next(s, ls, a[0]), ls, a[1..], b);
    }
  }

  lemma EndShows(s: Sys, ls: nat, g: Geo, t: nat)
    requires Legal(s, ls, [End(t)]) && HoldsHealthy(Visible(After(s, ls, [End(t)])), g)
    ensures EndsHealthy(s, ls, g, [End(t)])
  {
    hide HoldsHealthy;
    assert [End(t)][1..] == [];
    assert After(s, ls, [End(t)]) == Next(s, ls, End(t));
  }

  /** An operation whose result is healthy ends healthy. */
  lemma WholeEnds(s: Sys, ls: nat, g: Geo, t: nat, ws: seq<Write>)
    requires Legal(s, ls, Events(Whole(t, ws))) && HoldsHealthy(Visible(After(s, ls, Events(Whole(t, ws)))), g)
    ensures EndsHealthy(s, ls, g, Events(Whole(t, ws)))
  {
    hide Legal, After, EndsHealthy, HoldsHealthy, Visible, Modifies;
    var a := [Begin(t)] + Modifies(t, ws);
    assert Events(Whole(t, ws)) == a + [End(t)];
    LegalSplit(s, ls, a, [End(t)]);
    ModifiesNoEnd(t, ws);
    NoEndHealthy(s, ls, g, a);
    EndShows(After(s, ls, a), ls, g, t);
    EndsAppend(s, ls, g, a, [End(t)]);
  }

  // ------------------------------------------------------------------
  // A call and its commit; a power failure and its recovery
  // ------------------------------------------------------------------

  /** Nothing is going on and the durable disk holds `v`. */
  ghost predicate AtRest(s: Sys, ls: nat, d0: Disk, t: nat, g: Geo, v: Vol) {
    Inv(s, ls, d0) && Quiet(s) && Idle(s, t) && Laid(g, ls, |s.durable|) && Represents(s.durable, g, v)
  }

  /** A run that ends at rest. */
  ghost predicate Trace(boot: Sys, ls: nat, d0: Disk, t: nat, g: Geo, es: seq<Event>, v: Vol) {
    Legal(boot, ls, es) && EndsHealthy(boot, ls, g, es) && AtRest(After(boot, ls, es), ls, d0, t, g, v)
  }

  lemma TraceGrows(boot: Sys, ls: nat, d0: Disk, t: nat, g: Geo, es: seq<Event>, more: seq<Event>, v: Vol, w: Vol)
    requires Trace(boot, ls, d0, t, g, es, v) && Trace(After(boot, ls, es), ls, d0, t, g, more, w)
    ensures Trace(boot, ls, d0, t, g, es + more, w)
  {
    hide Legal, After, EndsHealthy, AtRest;
    LegalAppend(boot, ls, es, more);
    EndsAppend(boot, ls, g, es, more);
  }

  lemma CommitTrace(s: Sys, ls: nat, d0: Disk, g: Geo, t: nat, w: Vol)
    returns (es: seq<Event>)
    requires Inv(s, ls, d0) && s.mode.Committing? && t < |s.p.tasks| && s.p.tasks[t].Commits?
    requires Laid(g, ls, |s.durable|) && Represents(Visible(s), g, w)
    ensures Trace(s, ls, d0, t, g, es, w)
  {
    hide Inv, Legal, After, EndsHealthy, Writes, CommitShape, Times, Quiet, Idle, Visible, SameHome, Laid, Represents;
    CommitRuns(s, ls, d0, t);
    CommitShaped(s, ls, d0);
    var n := |Writes(s, ls)| - s.mode.pos;
    es := Times(n, CommitIo) + [Finish(t)];
    TimesNoEnd(n, CommitIo, Finish(t));
    NoEndHealthy(s, ls, g, es);
    var z := After(s, ls, es);
    SameLength(z.durable, Visible(s), ls);
    SameHomeSym(z.durable, Visible(s), ls);
    SameHomeRepresents(Visible(s), z.durable, ls, g, w);
  }

  lemma SameLength(d: Disk, e: Disk, ls: nat)
    requires SameHome(d, e, ls)
    ensures |d| == |e|
  {
  }

  /** The call, logged, ended and committed. */
  lemma CallTrace(s: Sys, ls: nat, d0: Disk, g: Geo, t: nat, v: Vol, w: Vol, dirty: set<nat>)
    returns (es: seq<Event>)
    requires AtRest(s, ls, d0, t, g, v) && g.ninodes < 0x1_0000_0000
    requires FsOps.Step(g, v, w, dirty) && |dirty| <= P.MAX_OPEN_BLOCKS
    ensures Trace(s, ls, d0, t, g, es, w)
  {
    hide Inv, Legal, After, EndsHealthy, Healthy, Represents, Events, Patched, CallWrites, Follows, Visible, Laid;
    CallIsJob(s, ls, d0, g, t, v, w, dirty);
    var ws := CallWrites(g, w, dirty);
    var a := Events(Whole(t, ws));
    var z := After(s, ls, a);
    assert HoldsHealthy(Visible(z), g);
    WholeEnds(s, ls, g, t, ws);
    var b := CommitTrace(z, ls, d0, g, t, w);
    LegalAppend(s, ls, a, b);
    EndsAppend(s, ls, g, a, b);
    es := a + b;
  }

  lemma CrashStep(s: Sys, ls: nat, d0: Disk)
    requires Inv(s, ls, d0)
    ensures Enabled(s, ls, Crash)
    ensures var z := Next(s, ls, Crash);
            && Inv(z, ls, d0) && z.mode.Recovering? && z.durable == s.durable
            && |z.p.tasks| == |s.p.tasks| && forall t :: 0 <= t < |z.p.tasks| ==> z.p.tasks[t].Out?
  {
    hide Inv;
    InvNext(s, ls, d0, Crash);
  }

  /** Power fails inside an operation, whatever that has written, and recovery runs. */
  lemma PowerTrace(s: Sys, ls: nat, d0: Disk, g: Geo, t: nat, v: Vol, ws: seq<Write>)
    returns (es: seq<Event>)
    requires AtRest(s, ls, d0, t, g, v) && Legal(s, ls, Events(CutShort(t, ws)))
    ensures Trace(s, ls, d0, t, g, es, v)
  {
    hide Inv, Legal, After, EndsHealthy, Represents, Next, Enabled, Modifies, GoodDisk, RecoverWrites, Laid, Times;
    var a := Events(CutShort(t, ws));
    CutShortKeeps(s, ls, d0, t, ws);
    var m := After(s, ls, a);
    ModifiesNoEnd(t, ws);
    NoEndHealthy(s, ls, g, a);
    CrashStep(m, ls, d0);
    var c := Next(m, ls, Crash);
    RecoveryRuns(c, ls, d0);
    var n := |RecoverWrites(c.mode.start, ls)| - c.mode.pos;
    var rest := Times(n, RecoverIo) + [Restart];
    TimesNoEnd(n, RecoverIo, Restart);
    LegalCons(m, ls, Crash, rest);
    var b := [Crash] + rest;
    NoEndHealthy(m, ls, g, b);
    LegalAppend(s, ls, a, b);
    EndsAppend(s, ls, g, a, b);
    es := a + b;
  }

  lemma CutShortKeeps(s: Sys, ls: nat, d0: Disk, t: nat, ws: seq<Write>)
    requires Inv(s, ls, d0) && Legal(s, ls, Events(CutShort(t, ws)))
    ensures var z := After(s, ls, Events(CutShort(t, ws)));
            Inv(z, ls, d0) && z.durable == s.durable && |z.p.tasks| == |s.p.tasks|
  {
    hide Inv, Next, Enabled, Modifies;
    var es := Events(CutShort(t, ws));
    assert es[0] == Begin(t) && es[1..] == Modifies(t, ws) && Modifies(t, ws) + [] == Modifies(t, ws);
    BeginKeeps(s, ls, d0, t);
    var a := Next(s, ls, Begin(t));
    ModifiesRun(a, ls, d0, t, ws, []);
    TaskCount(s, ls, es);
  }

  lemma {:induction false} TaskCount(s: Sys, ls: nat, es: seq<Event>)
    requires Legal(s, ls, es)
    ensures |After(s, ls, es).p.tasks| == |s.p.tasks|
    decreases |es|
  {
    if es != [] {
      TaskCountStep(s, ls, es[0]);
      hide Next, Enabled;
      TaskCount(Next(s, ls, es[0]), ls, es[1..]);
    }
  }

  lemma TaskCountStep(s: Sys, ls: nat, e: Event)
    requires Enabled(s, ls, e)
    ensures |Next(s, ls, e).p.tasks| == |s.p.tasks|
  {
    hide RecoverWrites, CommitWrites, Overlaid, GoodDisk;
  }

  // ------------------------------------------------------------------
  // Reading the volume back
  // ------------------------------------------------------------------

  /** What the kernel finds when it reads the disk. */
  function Mounted(d: Disk, g: Geo, ls: nat): Vol
    requires Laid(g, ls, |d|)
  {
    Vol(seq(g.nbits, b requires 0 <= b < g.nbits => BitmapBit(d, g, ls, b)), d[g.bd..g.bd + g.nbits],
        seq(g.ninodes, i requires 0 <= i < g.ninodes => DiskInode(d, g, ls, i)))
  }

  predicate BitmapBit(d: Disk, g: Geo, ls: nat, b: nat)
    requires Laid(g, ls, |d|) && b < g.nbits
  {
    BitmapBlockLies(g, ls, |d|, b);
    BitAt(d[BitmapBlockNo(g, b)], b % BITS_PER_BLOCK)
  }

  function DiskInode(d: Disk, g: Geo, ls: nat, i: nat): Dinode
    requires Laid(g, ls, |d|) && i < g.ninodes
  {
    InodeBlockLies(g, ls, |d|, i);
    InodeAt(d[InodeBlockNo(g, i)], i % INODES_PER_BLOCK)
  }

  /** A disk holds at most one volume, and it is the one that is read. */
  lemma MountedIs(d: Disk, g: Geo, ls: nat, v: Vol)
    requires Laid(g, ls, |d|) && Represents(d, g, v)
    ensures Mounted(d, g, ls) == v
  {
    hide InodeAt, BitAt, Shape, StoresAt;
    ShapeSizes(v, g);
    var m := Mounted(d, g, ls);
    forall b | 0 <= b < g.nbits ensures m.bits[b] == v.bits[b] { MountedBit(d, g, ls, v, b); }
    forall b | 0 <= b < g.nbits ensures m.data[b] == v.data[b] { MountedData(d, g, ls, v, b); }
    forall i | 0 <= i < g.ninodes ensures m.tab[i] == v.tab[i] { MountedInode(d, g, ls, v, i); }
  }

  lemma ShapeSizes(v: Vol, g: Geo)
    requires Shape(v, g)
    ensures |v.bits| == |v.data| == g.nbits && |v.tab| == g.ninodes
  {
  }

  lemma MountedBit(d: Disk, g: Geo, ls: nat, v: Vol, b: nat)
    requires Laid(g, ls, |d|) && Represents(d, g, v) && b < g.nbits
    ensures BitmapBit(d, g, ls, b) == v.bits[b]
  {
    hide InodeAt, BitAt;
    BitmapBlockLies(g, ls, |d|, b);
    assert StoresAt(d[BitmapBlockNo(g, b)], BitmapBlockNo(g, b), g, v);
  }

  lemma MountedData(d: Disk, g: Geo, ls: nat, v: Vol, b: nat)
    requires Laid(g, ls, |d|) && Represents(d, g, v) && b < g.nbits
    ensures g.bd + b < |d| && d[g.bd + b] == v.data[b]
  {
    hide InodeAt, BitAt;
    assert StoresAt(d[DataBlockNo(g, b)], DataBlockNo(g, b), g, v);
  }

  lemma MountedInode(d: Disk, g: Geo, ls: nat, v: Vol, i: nat)
    requires Laid(g, ls, |d|) && Represents(d, g, v) && i < g.ninodes
    ensures DiskInode(d, g, ls, i) == v.tab[i]
  {
    hide InodeAt, BitAt;
    InodeBlockLies(g, ls, |d|, i);
    assert StoresAt(d[InodeBlockNo(g, i)], InodeBlockNo(g, i), g, v);
  }
}
