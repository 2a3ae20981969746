/** The layers together: a machine that runs file system calls through the log,
    stopped anywhere and recovered, holds a healthy volume. */
module CrashSafety {
  import opened Blocks
  import opened Volume
  import opened FileSystem
  import opened Images
  import opened FsOps
  import P = LogProtocol
  import opened Journal
  import opened JournalSystem

  // ------------------------------------------------------------------
  // A volume on a disk
  // ------------------------------------------------------------------

  ghost predicate HoldsHealthy(d: Disk, g: Geo) {
    exists v :: Represents(d, g, v) && Healthy(v, g)
  }

  lemma SameHomeRepresents(d: Disk, e: Disk, ls: nat, g: Geo, v: Vol)
    requires Laid(g, ls, |d|) && SameHome(d, e, ls) && Represents(d, g, v)
    ensures Represents(e, g, v)
  {
    hide StoresAt, Laid, Shape;
    forall x | 0 <= x < |e| ensures StoresAt(e[x], x, g, v) {
      if Home(d, ls, x) { assert d[x] == e[x]; } else { LogBlocksFree(g, ls, |d|, e[x], x, v); }
    }
  }

  lemma SameHomeHolds(d: Disk, e: Disk, ls: nat, g: Geo)
    requires Laid(g, ls, |d|) && SameHome(d, e, ls) && HoldsHealthy(d, g)
    ensures HoldsHealthy(e, g)
  {
    hide Represents, Healthy;
    var v :| Represents(d, g, v) && Healthy(v, g);
    SameHomeRepresents(d, e, ls, g, v);
  }

  // ------------------------------------------------------------------
  // One operation
  // ------------------------------------------------------------------

  /** `e` is `d` after the logged blocks have received what `w` needs. */
  ghost predicate Delivers(d: Disk, e: Disk, g: Geo, w: Vol, dirty: set<nat>)
    requires Shape(w, g)
  {
    && |e| == |d|
    && (forall x :: 0 <= x < |d| && x in dirty ==> StoresAt(e[x], x, g, w))
    && (forall x :: 0 <= x < |d| && x !in dirty ==> e[x] == d[x])
  }

  /** A file system call on the volume that `d` holds has turned it into `e`. */
  ghost predicate Operation(d: Disk, e: Disk, g: Geo) {
    exists v, w, dirty :: Represents(d, g, v) && Step(g, v, w, dirty) && Shape(w, g) && Delivers(d, e, g, w, dirty)
  }

  lemma OperationKeeps(d: Disk, e: Disk, g: Geo)
    requires Operation(d, e, g)
    ensures HoldsHealthy(e, g)
  {
    hide StoresAt, Follows, Healthy;
    var v, w, dirty :| Represents(d, g, v) && Step(g, v, w, dirty) && Shape(w, g) && Delivers(d, e, g, w, dirty);
    forall x | 0 <= x < |e| ensures StoresAt(e[x], x, g, w) {
      if x !in dirty { UnloggedBlock(d[x], x, g, v, w, dirty); }
    }
    assert Represents(e, g, w);
  }

  // ------------------------------------------------------------------
  // Runs
  // ------------------------------------------------------------------

  /** A whole operation of task `t`, one that never ends, or an event of the machine:
      a write of commit or recovery, the end of either, a crash. */
  datatype Job = Whole(t: nat, ws: seq<Write>) | CutShort(t: nat, ws: seq<Write>) | Machine(e: Event)

  function Modifies(t: nat, ws: seq<Write>): (es: seq<Event>)
    ensures |es| == |ws|
  {
    if ws == [] then [] else [Modify(t, ws[0].at, ws[0].data)] + Modifies(t, ws[1..])
  }

  function Events(j: Job): seq<Event> {
    match j
    case Whole(t, ws) => [Begin(t)] + (Modifies(t, ws) + [End(t)])
    case CutShort(t, ws) => [Begin(t)] + Modifies(t, ws)
    case Machine(e) => [e]
  }

  /** The disk with the writes made one after the other. */
  function Patched(d: Disk, ws: seq<Write>): (e: Disk)
    ensures |e| == |d|
    decreases |ws|
  {
    if ws == [] then d else Patched(if ws[0].at < |d| then d[ws[0].at := ws[0].data] else d, ws[1..])
  }

  /** Operations run one at a time, and what each logs is what a file system call on
      the committed volume logs. */
  ghost predicate JobOk(s: Sys, ls: nat, g: Geo, j: Job) {
    && Legal(s, ls, Events(j))
    && match j
       case Whole(t, ws) => Quiet(s) && Operation(s.durable, Patched(s.durable, ws), g)
       case CutShort(_, _) => true
       case Machine(e) => !e.Begin? && !e.Modify? && !e.End?
  }

  ghost predicate JobsOk(s: Sys, ls: nat, g: Geo, js: seq<Job>)
    decreases |js|
  {
    js == [] || (JobOk(s, ls, g, js[0]) && JobsOk(After(s, ls, Events(js[0])), ls, g, js[1..]))
  }

  ghost function AfterJobs(s: Sys, ls: nat, g: Geo, js: seq<Job>): Sys
    requires JobsOk(s, ls, g, js)
    decreases |js|
  {
    if js == [] then s else AfterJobs(After(s, ls, Events(js[0])), ls, g, js[1..])
  }

  /** What reads see. */
  function Visible(s: Sys): Disk { ApplyMods(s.durable, s.pending) }

  ghost predicate Safe(s: Sys, ls: nat, d0: Disk, g: Geo) {
    && Inv(s, ls, d0) && Laid(g, ls, |s.durable|) && HoldsHealthy(s.durable, g)
    && (s.mode.Committing? ==> HoldsHealthy(Visible(s), g))
  }

  /** Committing makes durable what was visible. */
  lemma MachineSafe(s: Sys, ls: nat, d0: Disk, g: Geo, e: Event)
    requires Safe(s, ls, d0, g) && Enabled(s, ls, e) && !e.Begin? && !e.Modify? && !e.End?
    ensures Safe(Next(s, ls, e), ls, d0, g)
  {
    hide HoldsHealthy, GoodDisk, ReadHead, CommitWrites, RecoverWrites, Overlaid, ApplyGroups, Apply, P.Inv, IdInv, HealsTo, Clean, Logical;
    InvNext(s, ls, d0, e);
    var z := Next(s, ls, e);
    if e.CommitIo? && s.mode.pos == |s.mode.lh| {
      SameHomeSym(z.durable, Visible(s), ls);
      SameHomeHolds(Visible(s), z.durable, ls, g);
      assert Visible(z) == z.durable;
    }
  }

  lemma SameHomeSym(d: Disk, e: Disk, ls: nat)
    requires SameHome(d, e, ls)
    ensures SameHome(e, d, ls)
  {
    forall b | Home(e, ls, b) ensures e[b] == d[b] { assert Home(d, ls, b); }
  }

  /** A quiet machine has nothing pending. */
  lemma QuietIsDurable(s: Sys, ls: nat, d0: Disk)
    requires Inv(s, ls, d0) && Quiet(s)
    ensures s.pending == [] && s.p.v.lh == [] && !s.p.v.committing && Visible(s) == s.durable
  {
    hide ApplyGroups, Clean, HomeEntries, Logical, IdInv;
    if s.pending != [] { PendingIsLogged(s); }
  }

  lemma PendingIsLogged(s: Sys)
    requires IdInv(s) && s.pending != []
    ensures s.p.v.lh != []
  {
    assert s.pending[0].at in s.p.v.lh;
  }

  /** On a quiet machine an operation starts at once. */
  lemma BeginEnters(s: Sys, ls: nat, d0: Disk, t: nat)
    requires Inv(s, ls, d0) && Quiet(s) && Enabled(s, ls, Begin(t))
    ensures var z := Next(s, ls, Begin(t));
            && Inv(z, ls, d0) && z.mode.Up? && z.p.v.outstanding == 1 && z.durable == s.durable && z.pending == s.pending
  {
    hide Inv, P.Inv;
    InvNext(s, ls, d0, Begin(t));
    QuietIsDurable(s, ls, d0);
    P.BeginEffect(s.p.v, t);
  }

  lemma BeginKeeps(s: Sys, ls: nat, d0: Disk, t: nat)
    requires Inv(s, ls, d0) && Enabled(s, ls, Begin(t))
    ensures var z := Next(s, ls, Begin(t));
            Inv(z, ls, d0) && z.mode == s.mode && z.durable == s.durable && z.pending == s.pending
  {
    hide Inv;
    InvNext(s, ls, d0, Begin(t));
  }

  lemma ModifyStep(s: Sys, ls: nat, d0: Disk, t: nat, w: Write)
    requires Inv(s, ls, d0) && Enabled(s, ls, Modify(t, w.at, w.data))
    ensures var z := Next(s, ls, Modify(t, w.at, w.data));
            && Inv(z, ls, d0) && z.mode == s.mode && z.durable == s.durable && z.p.v.outstanding == s.p.v.outstanding
            && Visible(z) == Patched(Visible(s), [w])
  {
    hide Inv;
    InvNext(s, ls, d0, Modify(t, w.at, w.data));
    var z := Next(s, ls, Modify(t, w.at, w.data));
    assert z.pending[..|z.pending| - 1] == s.pending;
    assert [w][1..] == [];
  }

  /** The body of an operation changes what is visible and nothing that lasts. */
  lemma {:induction false} ModifiesRun(s: Sys, ls: nat, d0: Disk, t: nat, ws: seq<Write>, more: seq<Event>)
    requires Inv(s, ls, d0) && Legal(s, ls, Modifies(t, ws) + more)
    ensures Legal(s, ls, Modifies(t, ws))
    ensures var z := After(s, ls, Modifies(t, ws));
            && Inv(z, ls, d0) && z.mode == s.mode && z.durable == s.durable && z.p.v.outstanding == s.p.v.outstanding
            && Visible(z) == Patched(Visible(s), ws) && Legal(z, ls, more) && After(z, ls, more) == After(s, ls, Modifies(t, ws) + more)
    decreases |ws|
  {
    hide Inv, Next, Enabled;
    var es := Modifies(t, ws);
    if ws == [] {
      assert es + more == more;
    } else {
      assert (es + more)[0] == es[0] == Modify(t, ws[0].at, ws[0].data) && (es + more)[1..] == Modifies(t, ws[1..]) + more;
      assert es[1..] == Modifies(t, ws[1..]);
      ModifyStep(s, ls, d0, t, ws[0]);
      var z := Next(s, ls, es[0]);
      ModifiesRun(z, ls, d0, t, ws[1..], more);
      PatchedOne(Visible(s), ws);
    }
  }

  lemma PatchedOne(d: Disk, ws: seq<Write>)
    requires ws != []
    ensures Patched(Patched(d, ws[..1]), ws[1..]) == Patched(d, ws)
  {
    assert ws[..1] == [ws[0]] && ws[..1][1..] == [];
  }

  lemma EndStep(s: Sys, ls: nat, d0: Disk, t: nat)
    requires Inv(s, ls, d0) && s.mode.Up? && s.p.v.outstanding == 1 && Enabled(s, ls, End(t))
    ensures var z := Next(s, ls, End(t));
            Inv(z, ls, d0) && z.durable == s.durable && z.pending == s.pending && z.mode.Committing?
  {
    hide Inv;
    InvNext(s, ls, d0, End(t));
  }

  lemma WholeSafe(s: Sys, ls: nat, d0: Disk, g: Geo, t: nat, ws: seq<Write>)
    requires Safe(s, ls, d0, g) && JobOk(s, ls, g, Whole(t, ws))
    ensures Safe(After(s, ls, Events(Whole(t, ws))), ls, d0, g)
  {
    hide Inv, Next, Enabled, HoldsHealthy, Operation, Patched, Modifies, Quiet;
    var es, rest := Events(Whole(t, ws)), Modifies(t, ws) + [End(t)];
    assert es[0] == Begin(t) && es[1..] == rest;
    QuietIsDurable(s, ls, d0);
    BeginEnters(s, ls, d0, t);
    var a := Next(s, ls, Begin(t));
    ModifiesRun(a, ls, d0, t, ws, [End(t)]);
    var b := After(a, ls, Modifies(t, ws));
    assert [End(t)][1..] == [];
    EndStep(b, ls, d0, t);
    var z := Next(b, ls, End(t));
    assert After(b, ls, [End(t)]) == z;
    OperationKeeps(s.durable, Patched(s.durable, ws), g);
    assert Visible(z) == Patched(s.durable, ws);
  }

  lemma CutShortSafe(s: Sys, ls: nat, d0: Disk, g: Geo, t: nat, ws: seq<Write>)
    requires Safe(s, ls, d0, g) && JobOk(s, ls, g, CutShort(t, ws))
    ensures Safe(After(s, ls, Events(CutShort(t, ws))), ls, d0, g)
  {
    hide Inv, Next, HoldsHealthy, Patched, Modifies;
    var es := Events(CutShort(t, ws));
    assert es[0] == Begin(t) && es[1..] == Modifies(t, ws) && Modifies(t, ws) + [] == Modifies(t, ws);
    BeginKeeps(s, ls, d0, t);
    var a := Next(s, ls, Begin(t));
    ModifiesRun(a, ls, d0, t, ws, []);
    if s.mode.Committing? { CommittingModifiesNothing(a, ls, t, ws); }
  }

  /** While a commit runs nobody can be inside an operation. */
  lemma CommittingModifiesNothing(s: Sys, ls: nat, t: nat, ws: seq<Write>)
    requires s.mode.Committing? && Legal(s, ls, Modifies(t, ws))
    ensures ws == []
  {
    hide Modifies;
    FirstModify(t, ws);
  }

  lemma FirstModify(t: nat, ws: seq<Write>)
    ensures ws != [] ==> Modifies(t, ws)[0].Modify?
  {
  }

  lemma {:induction false} JobsSafe(s: Sys, ls: nat, d0: Disk, g: Geo, js: seq<Job>)
    requires Safe(s, ls, d0, g) && JobsOk(s, ls, g, js)
    ensures Safe(AfterJobs(s, ls, g, js), ls, d0, g)
    decreases |js|
  {
    hide Safe, Operation, Next, Enabled;
    if js != [] {
      JobSafe(s, ls, d0, g, js[0]);
      JobsSafe(After(s, ls, Events(js[0])), ls, d0, g, js[1..]);
    }
  }

  lemma JobSafe(s: Sys, ls: nat, d0: Disk, g: Geo, j: Job)
    requires Safe(s, ls, d0, g) && JobOk(s, ls, g, j)
    ensures Safe(After(s, ls, Events(j)), ls, d0, g)
  {
    hide Safe, Next, Enabled;
    match j
    case Whole(t, ws) => WholeSafe(s, ls, d0, g, t, ws);
    case CutShort(t, ws) => CutShortSafe(s, ls, d0, g, t, ws);
    case Machine(e) =>
      assert [e][1..] == [];
      MachineSafe(s, ls, d0, g, e);
  }

  /** Stop the machine anywhere, in the middle of a call, of a commit or of a
      recovery; let recovery be cut short any number of times and then finish: the
      disk holds a volume in which every block has its one owner, no file has a hole
      and the directory tree and its link counts are right. */
  lemma FileSystemSurvives(s: Sys, ls: nat, d0: Disk, g: Geo, js: seq<Job>, stops: seq<nat>)
    requires Start(s, ls, d0) && Laid(g, ls, |d0|) && HoldsHealthy(d0, g) && JobsOk(s, ls, g, js)
    ensures var e := Interrupted(AfterJobs(s, ls, g, js).disk, ls, stops);
            GoodDisk(e, ls) && HoldsHealthy(Apply(e, RecoverWrites(e, ls)), g)
  {
    hide Inv, HoldsHealthy, Apply, RecoverWrites, Interrupted, JobsOk, AfterJobs, GoodDisk;
    InvStart(s, ls, d0);
    JobsSafe(s, ls, d0, g, js);
    SafeRecovers(AfterJobs(s, ls, g, js), ls, d0, g, stops);
  }

  // ------------------------------------------------------------------
  // Group commit
  // ------------------------------------------------------------------

  /** Operations of many tasks overlap in any way; whenever the last open one ends,
      what reads see is a healthy volume. */
  ghost predicate EndsHealthy(s: Sys, ls: nat, g: Geo, es: seq<Event>)
    requires Legal(s, ls, es)
    decreases |es|
  {
    es == [] ||
    (&& (es[0].End? && Next(s, ls, es[0]).mode.Committing? ==> HoldsHealthy(Visible(s), g))
     && EndsHealthy(Next(s, ls, es[0]), ls, g, es[1..]))
  }

  lemma EventSafe(s: Sys, ls: nat, d0: Disk, g: Geo, e: Event)
    requires Safe(s, ls, d0, g) && Enabled(s, ls, e)
    requires e.End? && Next(s, ls, e).mode.Committing? ==> HoldsHealthy(Visible(s), g)
    ensures Safe(Next(s, ls, e), ls, d0, g)
  {
    hide Inv, HoldsHealthy;
    match e
    case Begin(t) => BeginKeeps(s, ls, d0, t);
    case Modify(t, b, data) => ModifyStep(s, ls, d0, t, Write(b, data));
    case End(t) => InvNext(s, ls, d0, e);
    case CommitIo => MachineSafe(s, ls, d0, g, e);
    case Finish(_) => MachineSafe(s, ls, d0, g, e);
    case Crash => MachineSafe(s, ls, d0, g, e);
    case RecoverIo => MachineSafe(s, ls, d0, g, e);
    case Restart => MachineSafe(s, ls, d0, g, e);
  }

  lemma {:induction false} EventsSafe(s: Sys, ls: nat, d0: Disk, g: Geo, es: seq<Event>)
    requires Safe(s, ls, d0, g) && Legal(s, ls, es) && EndsHealthy(s, ls, g, es)
    ensures Safe(After(s, ls, es), ls, d0, g)
    decreases |es|
  {
    hide Safe, Next, Enabled, HoldsHealthy;
    if es != [] {
      EventSafe(s, ls, d0, g, es[0]);
      EventsSafe(Next(s, ls, es[0]), ls, d0, g, es[1..]);
    }
  }

  /** The same for group commit: a crash never exposes a moment at which an operation
      was open. */
  lemma GroupsSurvive(s: Sys, ls: nat, d0: Disk, g: Geo, es: seq<Event>, stops: seq<nat>)
    requires Start(s, ls, d0) && Laid(g, ls, |d0|) && HoldsHealthy(d0, g) && Legal(s, ls, es) && EndsHealthy(s, ls, g, es)
    ensures var e := Interrupted(After(s, ls, es).disk, ls, stops);
            GoodDisk(e, ls) && HoldsHealthy(Apply(e, RecoverWrites(e, ls)), g)
  {
    hide Inv, HoldsHealthy, Legal, After, EndsHealthy, Apply, RecoverWrites, Interrupted, GoodDisk;
    InvStart(s, ls, d0);
    EventsSafe(s, ls, d0, g, es);
    SafeRecovers(After(s, ls, es), ls, d0, g, stops);
  }

  // ------------------------------------------------------------------
  // Calls of many tasks in one group
  // ------------------------------------------------------------------

  /** What lies between log_begin_op and log_end_op is one piece; operations overlap
      and share a commit.  A body is whole, or torn by a crash; anything else that can
      happen is a single event. */
  datatype Move = Body(t: nat, ws: seq<Write>) | Torn(t: nat, ws: seq<Write>) | Other(e: Event)

  function MoveEvents(m: Move): seq<Event> {
    match m
    case Body(t, ws) => Modifies(t, ws)
    case Torn(t, ws) => Modifies(t, ws) + [Crash]
    case Other(e) => [e]
  }

  /** The body of each call works on what reads see, left by the calls before it. */
  ghost predicate MoveOk(s: Sys, ls: nat, g: Geo, m: Move) {
    && Legal(s, ls, MoveEvents(m))
    && match m
       case Body(_, ws) => Operation(Visible(s), Patched(Visible(s), ws), g)
       case Torn(_, _) => true
       case Other(e) => !e.Modify?
  }

  ghost predicate MovesOk(s: Sys, ls: nat, g: Geo, ms: seq<Move>)
    decreases |ms|
  {
    ms == [] || (MoveOk(s, ls, g, ms[0]) && MovesOk(After(s, ls, MoveEvents(ms[0])), ls, g, ms[1..]))
  }

  ghost function AfterMoves(s: Sys, ls: nat, g: Geo, ms: seq<Move>): Sys
    requires MovesOk(s, ls, g, ms)
    decreases |ms|
  {
    if ms == [] then s else AfterMoves(After(s, ls, MoveEvents(ms[0])), ls, g, ms[1..])
  }

  /** Between two moves what reads see is healthy as well. */
  ghost predicate Calm(s: Sys, ls: nat, d0: Disk, g: Geo) {
    Safe(s, ls, d0, g) && HoldsHealthy(Visible(s), g)
  }

  lemma BodyCalm(s: Sys, ls: nat, d0: Disk, g: Geo, t: nat, ws: seq<Write>)
    requires Calm(s, ls, d0, g) && MoveOk(s, ls, g, Body(t, ws))
    ensures Calm(After(s, ls, MoveEvents(Body(t, ws))), ls, d0, g)
  {
    hide Inv, HoldsHealthy, Operation, Patched, Modifies, Visible;
    assert Modifies(t, ws) + [] == Modifies(t, ws);
    ModifiesRun(s, ls, d0, t, ws, []);
    OperationKeeps(Visible(s), Patched(Visible(s), ws), g);
  }

  lemma TornCalm(s: Sys, ls: nat, d0: Disk, g: Geo, t: nat, ws: seq<Write>)
    requires Calm(s, ls, d0, g) && MoveOk(s, ls, g, Torn(t, ws))
    ensures Calm(After(s, ls, MoveEvents(Torn(t, ws))), ls, d0, g)
  {
    hide Inv, HoldsHealthy, Patched, Modifies;
    ModifiesRun(s, ls, d0, t, ws, [Crash]);
    var z := After(s, ls, Modifies(t, ws));
    assert [Crash][1..] == [];
    InvNext(z, ls, d0, Crash);
  }

  lemma OtherCalm(s: Sys, ls: nat, d0: Disk, g: Geo, e: Event)
    requires Calm(s, ls, d0, g) && Enabled(s, ls, e) && !e.Modify?
    ensures Calm(Next(s, ls, e), ls, d0, g)
  {
    hide Inv, HoldsHealthy;
    EventSafe(s, ls, d0, g, e);
    hide Laid, Operation;
    if e.Finish? { NothingPending(s, ls, d0); }
  }

  lemma NothingPending(s: Sys, ls: nat, d0: Disk)
    requires Inv(s, ls, d0) && CommitShape(s, ls) && s.mode.pos == |Writes(s, ls)|
    ensures s.pending == []
  {
    hide P.Inv, ApplyGroups, IdInv, Apply, Overlaid, PutHead;
  }

  lemma MoveCalm(s: Sys, ls: nat, d0: Disk, g: Geo, m: Move)
    requires Calm(s, ls, d0, g) && MoveOk(s, ls, g, m)
    ensures Calm(After(s, ls, MoveEvents(m)), ls, d0, g)
  {
    hide Calm, Next, Enabled, Operation;
    match m
    case Body(t, ws) => BodyCalm(s, ls, d0, g, t, ws);
    case Torn(t, ws) => TornCalm(s, ls, d0, g, t, ws);
    case Other(e) =>
      assert [e][1..] == [];
      OtherCalm(s, ls, d0, g, e);
  }

  lemma {:induction false} MovesCalm(s: Sys, ls: nat, d0: Disk, g: Geo, ms: seq<Move>)
    requires Calm(s, ls, d0, g) && MovesOk(s, ls, g, ms)
    ensures Calm(AfterMoves(s, ls, g, ms), ls, d0, g)
    decreases |ms|
  {
    hide Calm, MoveOk, MoveEvents;
    if ms != [] {
      assert Legal(s, ls, MoveEvents(ms[0])) by { MoveLegal(s, ls, g, ms[0]); }
      MoveCalm(s, ls, d0, g, ms[0]);
      MovesCalm(After(s, ls, MoveEvents(ms[0])), ls, d0, g, ms[1..]);
    }
  }

  lemma MoveLegal(s: Sys, ls: nat, g: Geo, m: Move)
    requires MoveOk(s, ls, g, m)
    ensures Legal(s, ls, MoveEvents(m))
  {
  }

  /** Calls of any number of tasks whose operations overlap in any way and commit in
      groups: wherever the run stops, the disk recovers to a healthy volume. */
  lemma OverlappingSurvive(s: Sys, ls: nat, d0: Disk, g: Geo, ms: seq<Move>, stops: seq<nat>)
    requires Start(s, ls, d0) && Laid(g, ls, |d0|) && HoldsHealthy(d0, g) && MovesOk(s, ls, g, ms)
    ensures var e := Interrupted(AfterMoves(s, ls, g, ms).disk, ls, stops);
            GoodDisk(e, ls) && HoldsHealthy(Apply(e, RecoverWrites(e, ls)), g)
  {
    hide Inv, HoldsHealthy, Apply, RecoverWrites, Interrupted, MovesOk, AfterMoves, GoodDisk;
    InvStart(s, ls, d0);
    MovesCalm(s, ls, d0, g, ms);
    SafeRecovers(AfterMoves(s, ls, g, ms), ls, d0, g, stops);
  }

  lemma SafeRecovers(z: Sys, ls: nat, d0: Disk, g: Geo, stops: seq<nat>)
    requires Safe(z, ls, d0, g)
    ensures var e := Interrupted(z.disk, ls, stops);
            GoodDisk(e, ls) && HoldsHealthy(Apply(e, RecoverWrites(e, ls)), g)
  {
    hide Inv, HoldsHealthy, Apply, RecoverWrites, Interrupted, GoodDisk, Healed;
    InvHeals(z, ls, d0);
    InterruptedHeals(z.disk, ls, z.durable, stops);
    var e := Interrupted(z.disk, ls, stops);
    var n := |RecoverWrites(e, ls)|;
    assert RecoverWrites(e, ls)[..n] == RecoverWrites(e, ls);
    RecoverPrefix(e, ls, z.durable, n);
    var r := Apply(e, RecoverWrites(e, ls));
    SameHomeSym(r, z.durable, ls);
    SameHomeHolds(z.durable, r, ls, g);
  }

  lemma InvHeals(s: Sys, ls: nat, d0: Disk)
    requires Inv(s, ls, d0)
    ensures HealsTo(s.disk, ls, s.durable)
  {
    hide HealsTo, UpInv, CommittingInv, RecoveringInv;
    AlwaysHeals(s, ls);
  }
}
