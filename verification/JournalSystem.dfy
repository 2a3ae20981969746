/** The log as a whole: operations of many tasks interleaved with the
    single-block writes of commit, with crashes and with recovery.

    `durable` is the content that the last committed group left; the theorem is
    that in every reachable state recovery produces exactly `durable`, that
    `durable` is the initial disk with whole groups applied in order, and that
    the writes of one operation are never split between groups. */
module JournalSystem {
  import Common
  import opened Blocks
  import P = LogProtocol
  import opened Journal
  import opened JournalCode

  /** A modification of a buffer made by operation `id` and passed to log_write. */
  datatype Mod = Mod(id: nat, at: nat, data: Block)

  datatype Mode =
    | Up
    | Committing(start: Disk, lh: seq<nat>, vals: seq<Block>, pos: nat)
    | Recovering(start: Disk, pos: nat)

  datatype Sys = Sys(
    p: P.State,
    disk: Disk,
    dirty: map<nat, Block>,
    mode: Mode,
    durable: Disk,
    groups: seq<seq<Mod>>,
    pending: seq<Mod>)

  datatype Event =
    | Begin(t: nat)
    | Modify(t: nat, b: nat, data: Block)
    | End(t: nat)
    | CommitIo
    | Finish(t: nat)
    | Crash
    | RecoverIo
    | Restart

  function ApplyMods(d: Disk, ms: seq<Mod>): (r: Disk)
    ensures |r| == |d|
  {
    if ms == [] then d
    else
      var e := ApplyMods(d, ms[..|ms| - 1]);
      var m := ms[|ms| - 1];
      if m.at < |e| then e[m.at := m.data] else e
  }

  function ApplyGroups(d: Disk, gs: seq<seq<Mod>>): (r: Disk)
    ensures |r| == |d|
  {
    if gs == [] then d else ApplyMods(ApplyGroups(d, gs[..|gs| - 1]), gs[|gs| - 1])
  }

  // ------------------------------------------------------------------
  // Steps
  // ------------------------------------------------------------------

  predicate CommitShape(s: Sys, ls: nat) {
    s.mode.Committing? && ls < |s.mode.start| && Entries(s.mode.lh) && |s.mode.lh| == |s.mode.vals|
  }

  function Writes(s: Sys, ls: nat): seq<Write>
    requires CommitShape(s, ls)
  {
    CommitWrites(s.mode.start, ls, s.mode.lh, s.mode.vals)
  }

  predicate Enabled(s: Sys, ls: nat, e: Event) {
    match e
    case Begin(t) => !s.mode.Recovering? && P.Enabled(s.p, P.Begin(t))
    case Modify(t, b, data) =>
      s.mode.Up? && Home(s.disk, ls, b) && P.Enabled(s.p, P.LogWrite(t, b))
    case End(t) =>
      s.mode.Up? && P.Enabled(s.p, P.End(t)) && forall i :: 0 <= i < |s.p.v.lh| ==> s.p.v.lh[i] < |s.disk|
    case CommitIo => CommitShape(s, ls) && s.mode.pos < |Writes(s, ls)|
    case Finish(t) =>
      CommitShape(s, ls) && s.mode.pos == |Writes(s, ls)| && P.Enabled(s.p, P.Commit(t))
    case Crash => true
    case RecoverIo =>
      s.mode.Recovering? && GoodDisk(s.mode.start, ls) && s.mode.pos < |RecoverWrites(s.mode.start, ls)|
    case Restart =>
      s.mode.Recovering? && GoodDisk(s.mode.start, ls) && s.mode.pos == |RecoverWrites(s.mode.start, ls)|
  }

  function Put(d: Disk, w: Write): Disk {
    if w.at < |d| then d[w.at := w.data] else d
  }

  function Reboot(p: P.State): P.State {
    P.State(P.BootView, seq(|p.tasks|, _ => P.Out), p.next, p.next)
  }

  /** The header write is the commit point. */
  ghost function AfterCommitIo(s: Sys, ls: nat): Sys
    requires Enabled(s, ls, CommitIo)
  {
    var u := s.(disk := Put(s.disk, Writes(s, ls)[s.mode.pos]),
                mode := Committing(s.mode.start, s.mode.lh, s.mode.vals, s.mode.pos + 1));
    if s.mode.pos == |s.mode.lh| then
      u.(durable := Overlaid(s.mode.start, s.mode.lh, s.mode.vals),
         groups := s.groups + [s.pending], pending := [], p := s.p.(base := s.p.next))
    else u
  }

  ghost function Next(s: Sys, ls: nat, e: Event): Sys
    requires Enabled(s, ls, e)
  {
    match e
    case Begin(t) => s.(p := P.Next(s.p, P.Begin(t)))
    case Modify(t, b, data) =>
      s.(p := P.Next(s.p, P.LogWrite(t, b)), dirty := s.dirty[b := data],
         pending := s.pending + [Mod(s.p.tasks[t].id, b, data)])
    case End(t) =>
      var p := P.Next(s.p, P.End(t));
      if p.v.committing then
        s.(p := p, mode := Committing(s.disk, s.p.v.lh, Fetch(s.disk, s.dirty, s.p.v.lh), 0))
      else s.(p := p)
    case CommitIo => AfterCommitIo(s, ls)
    case Finish(t) =>
      s.(p := P.Next(P.Next(s.p, P.Commit(t)), P.Done(t)), dirty := map[], mode := Up)
    case Crash =>
      s.(p := Reboot(s.p), dirty := map[], mode := Recovering(s.disk, 0), pending := [])
    case RecoverIo =>
      s.(disk := Put(s.disk, RecoverWrites(s.mode.start, ls)[s.mode.pos]),
         mode := Recovering(s.mode.start, s.mode.pos + 1))
    case Restart => s.(mode := Up)
  }

  // ------------------------------------------------------------------
  // The invariant
  // ------------------------------------------------------------------

  /** What reads through the buffer cache see. */
  ghost predicate Logical(d: Disk, dirty: map<nat, Block>, ls: nat, g: Disk) {
    |g| == |d| && forall b :: Home(d, ls, b) ==> Cached(d, dirty, b) == g[b]
  }

  ghost predicate UpInv(s: Sys, ls: nat) {
    && !s.p.v.committing
    && Clean(s.disk, ls, s.durable)
    && HomeEntries(s.disk, ls, s.p.v.lh)
    && (forall b :: b in s.dirty <==> b in s.p.v.lh)
    && Logical(s.disk, s.dirty, ls, ApplyMods(s.durable, s.pending))
  }

  ghost predicate CommittingInv(s: Sys, ls: nat) {
    && s.mode.Committing?
    && var start, lh, vals, pos := s.mode.start, s.mode.lh, s.mode.vals, s.mode.pos;
    && s.p.v.committing && s.p.v.lh == lh
    && GoodDisk(start, ls) && ReadHead(start[ls]) == [] && |start| == |s.durable|
    && HomeEntries(start, ls, lh) && |vals| == |lh|
    && pos <= |CommitWrites(start, ls, lh, vals)|
    && s.disk == Apply(start, CommitWrites(start, ls, lh, vals)[..pos])
    && (pos <= |lh| ==>
          SameHome(start, s.durable, ls)
          && SameHome(Overlaid(start, lh, vals), ApplyMods(s.durable, s.pending), ls))
    && (pos > |lh| ==> s.durable == Overlaid(start, lh, vals) && s.pending == [])
    && (lh == [] ==> s.pending == [])
  }

  ghost predicate RecoveringInv(s: Sys, ls: nat) {
    && s.mode.Recovering?
    && s.pending == [] && s.dirty == map[] && s.p.v == P.BootView
    && HealsTo(s.mode.start, ls, s.durable)
    && s.mode.pos <= |RecoverWrites(s.mode.start, ls)|
    && s.disk == Apply(s.mode.start, RecoverWrites(s.mode.start, ls)[..s.mode.pos])
  }

  /** Operations are numbered in the order of the groups they belong to. */
  predicate IdInv(s: Sys) {
    && (forall i, j :: 0 <= i < |s.groups| && 0 <= j < |s.groups[i]| ==> s.groups[i][j].id < s.p.base)
    && (forall j :: 0 <= j < |s.pending| ==>
          s.p.base <= s.pending[j].id < s.p.next && s.pending[j].at in s.p.v.lh)
    && (forall g, h, i, j :: 0 <= g < h < |s.groups| && 0 <= i < |s.groups[g]| && 0 <= j < |s.groups[h]| ==>
          s.groups[g][i].id < s.groups[h][j].id)
  }

  ghost predicate ModeInv(s: Sys, ls: nat) {
    match s.mode
    case Up => UpInv(s, ls)
    case Committing(_, _, _, _) => CommittingInv(s, ls)
    case Recovering(_, _) => RecoveringInv(s, ls)
  }

  ghost predicate Inv(s: Sys, ls: nat, d0: Disk) {
    && P.Inv(s.p)
    && SameHome(s.durable, ApplyGroups(d0, s.groups), ls)
    && IdInv(s)
    && ModeInv(s, ls)
  }

  /** A freshly made file system on an idle machine. */
  ghost predicate Start(s: Sys, ls: nat, d0: Disk) {
    && P.Boot(s.p) && Clean(s.disk, ls, d0) && s.dirty == map[] && s.mode == Up
    && s.durable == d0 && s.groups == [] && s.pending == []
  }

  // ------------------------------------------------------------------
  // Small facts
  // ------------------------------------------------------------------

  lemma {:induction false} ApplyModsHome(d: Disk, e: Disk, ls: nat, ms: seq<Mod>)
    requires SameHome(d, e, ls)
    ensures SameHome(ApplyMods(d, ms), ApplyMods(e, ms), ls)
  {
    if ms != [] {
      ApplyModsHome(d, e, ls, ms[..|ms| - 1]);
      var f, g := ApplyMods(d, ms[..|ms| - 1]), ApplyMods(e, ms[..|ms| - 1]);
      assert forall b :: Home(ApplyMods(d, ms), ls, b) ==> Home(f, ls, b);
    }
  }

  lemma SameHomeTrans(d: Disk, e: Disk, f: Disk, ls: nat)
    requires SameHome(d, e, ls) && SameHome(e, f, ls)
    ensures SameHome(d, f, ls)
  {
    assert forall b :: Home(d, ls, b) ==> Home(e, ls, b);
  }

  lemma HealsToSame(d: Disk, ls: nat, g: Disk, h: Disk)
    requires HealsTo(d, ls, g) && SameHome(g, h, ls)
    ensures HealsTo(d, ls, h)
  {
    hide GoodDisk, Healed;
    forall b | Home(d, ls, b) ensures Healed(d, ls, b) == h[b] { assert Home(g, ls, b); }
  }

  lemma CommitWritesInRange(d: Disk, ls: nat, lh: seq<nat>, vals: seq<Block>, k: nat)
    requires Geometry(d, ls) && HomeEntries(d, ls, lh) && |lh| == |vals|
    requires k < |CommitWrites(d, ls, lh, vals)|
    ensures CommitWrites(d, ls, lh, vals)[k].at < |d|
  {
    hide PutEntries, PutHead;
    var n := |lh|;
    if k > n && k < 2 * n + 1 { assert CommitWrites(d, ls, lh, vals)[k] == InstallWrites(lh, vals)[k - n - 1]; }
  }

  lemma RecoverWritesInRange(d: Disk, ls: nat, k: nat)
    requires GoodDisk(d, ls) && k < |RecoverWrites(d, ls)|
    ensures RecoverWrites(d, ls)[k].at < |d|
  {
    hide PutEntries, PutHead;
  }

  /** In every mode recovery of the disk as it stands yields `durable`. */
  lemma AlwaysHeals(s: Sys, ls: nat)
    requires ModeInv(s, ls)
    ensures HealsTo(s.disk, ls, s.durable)
  {
    hide GoodDisk, Healed, Word, PutEntries, RecoverWrites, CommitWrites, Apply, Overlaid;
    match s.mode
    case Up =>
      CleanHeals(s.durable, s.disk, ls);
    case Committing(start, lh, vals, pos) =>
      CommitPrefix(start, ls, lh, vals, pos);
      if pos <= |lh| { HealsToSame(s.disk, ls, start, s.durable); }
    case Recovering(start, pos) =>
      RecoverPrefix(start, ls, s.durable, pos);
  }

  // ------------------------------------------------------------------
  // Every step keeps the invariant
  // ------------------------------------------------------------------

  lemma InvStart(s: Sys, ls: nat, d0: Disk)
    requires Start(s, ls, d0)
    ensures Inv(s, ls, d0)
  {
    hide Word;
    P.InvBoot(s.p);
  }

  lemma InvBegin(s: Sys, ls: nat, d0: Disk, t: nat)
    requires Inv(s, ls, d0) && Enabled(s, ls, Begin(t))
    ensures Inv(Next(s, ls, Begin(t)), ls, d0)
  {
    hide GoodDisk, Healed, Word, PutEntries, RecoverWrites, CommitWrites, Apply, Overlaid, P.Inv, ApplyGroups;
    P.InvNext(s.p, P.Begin(t));
    P.BeginEffect(s.p.v, t);
  }

  lemma LogicalModify(d: Disk, dirty: map<nat, Block>, ls: nat, g: Disk, ms: seq<Mod>, m: Mod)
    requires Home(d, ls, m.at) && |g| == |d| && Logical(d, dirty, ls, ApplyMods(g, ms))
    ensures Logical(d, dirty[m.at := m.data], ls, ApplyMods(g, ms + [m]))
  {
    assert (ms + [m])[..|ms|] == ms;
    assert ApplyMods(g, ms + [m]) == ApplyMods(g, ms)[m.at := m.data];
  }

  lemma IdInvModify(s: Sys, s': Sys, m: Mod)
    requires IdInv(s) && s'.groups == s.groups && s'.pending == s.pending + [m]
    requires s'.p.base == s.p.base <= m.id < s.p.next == s'.p.next
    requires m.at in s'.p.v.lh && forall b :: b in s.p.v.lh ==> b in s'.p.v.lh
    ensures IdInv(s')
  {
  }

  lemma UpModify(s: Sys, ls: nat, t: nat, b: nat, data: Block)
    requires UpInv(s, ls) && Enabled(s, ls, Modify(t, b, data))
    requires var lh := Next(s, ls, Modify(t, b, data)).p.v.lh; |lh| <= P.LOG_SIZE && Common.Distinct(lh)
    ensures UpInv(Next(s, ls, Modify(t, b, data)), ls)
  {
    hide GoodDisk, Healed, Word, ReadHead, ApplyMods, Logical, SameHome;
    var m := Mod(s.p.tasks[t].id, b, data);
    assert |s.disk| == |s.durable| by { SameSize(s, ls); }
    LogicalModify(s.disk, s.dirty, ls, s.durable, s.pending, m);
  }

  lemma SameSize(s: Sys, ls: nat)
    requires UpInv(s, ls)
    ensures |s.disk| == |s.durable|
  {
  }

  lemma LoggedFits(p: P.State)
    requires P.Inv(p)
    ensures |p.v.lh| <= P.LOG_SIZE && Common.Distinct(p.v.lh)
  {
  }

  lemma LoggerId(p: P.State, t: nat)
    requires P.Inv(p) && t < |p.tasks| && p.tasks[t].InOp?
    ensures p.base <= p.tasks[t].id < p.next
  {
  }

  lemma InvModify(s: Sys, ls: nat, d0: Disk, t: nat, b: nat, data: Block)
    requires Inv(s, ls, d0) && Enabled(s, ls, Modify(t, b, data))
    ensures Inv(Next(s, ls, Modify(t, b, data)), ls, d0)
  {
    hide UpInv, P.Inv, ApplyMods, ApplyGroups, IdInv, SameHome;
    var s' := Next(s, ls, Modify(t, b, data));
    P.InvNext(s.p, P.LogWrite(t, b));
    LoggedFits(s'.p);
    LoggerId(s.p, t);
    UpModify(s, ls, t, b, data);
    IdInvModify(s, s', Mod(s.p.tasks[t].id, b, data));
  }

  /** Committing means writing what the cache shows. */
  lemma OverlayIsLogical(s: Sys, ls: nat, g: Disk)
    requires UpInv(s, ls) && Logical(s.disk, s.dirty, ls, g)
    ensures SameHome(Overlaid(s.disk, s.p.v.lh, Fetch(s.disk, s.dirty, s.p.v.lh)), g, ls)
  {
    hide GoodDisk, Healed, Word, PutEntries;
    var lh := s.p.v.lh;
    var vals := Fetch(s.disk, s.dirty, lh);
    var o := Overlaid(s.disk, lh, vals);
    forall b | Home(o, ls, b) ensures o[b] == g[b] {
      assert Home(s.disk, ls, b);
      var k := IndexOf(lh, b);
      if k < |lh| { FetchAt(s.disk, s.dirty, lh, k); }
    }
  }

  lemma EndCommits(s: Sys, ls: nat, t: nat)
    requires P.Inv(s.p) && IdInv(s) && UpInv(s, ls) && s.mode.Up? && Enabled(s, ls, End(t))
    requires P.Next(s.p, P.End(t)).v.committing
    ensures CommittingInv(Next(s, ls, End(t)), ls)
  {
    hide Healed, Word, PutEntries, Overlaid, ApplyMods;
    var s' := Next(s, ls, End(t));
    OverlayIsLogical(s, ls, ApplyMods(s.durable, s.pending));
    var ws := CommitWrites(s.disk, ls, s.p.v.lh, s'.mode.vals);
    assert ws[..0] == [];
    ApplyNone(s.disk);
    if s.pending != [] { assert s.pending[0].at in s.p.v.lh; }
  }

  lemma InvEnd(s: Sys, ls: nat, d0: Disk, t: nat)
    requires Inv(s, ls, d0) && Enabled(s, ls, End(t))
    ensures Inv(Next(s, ls, End(t)), ls, d0)
  {
    hide ApplyGroups, ApplyMods, Clean, HomeEntries, Logical, CommittingInv, P.Inv;
    P.InvNext(s.p, P.End(t));
    if P.Next(s.p, P.End(t)).v.committing { EndCommits(s, ls, t); }
  }

  lemma DiskAdvances(s: Sys, ls: nat)
    requires CommittingInv(s, ls) && Enabled(s, ls, CommitIo)
    ensures Next(s, ls, CommitIo).disk == Apply(s.mode.start, Writes(s, ls)[..s.mode.pos + 1])
  {
    hide Healed, Word, PutEntries, CommitWrites, Apply;
    CommitWritesInRange(s.mode.start, ls, s.mode.lh, s.mode.vals, s.mode.pos);
    ApplyNext(s.mode.start, Writes(s, ls), s.mode.pos);
  }

  lemma CommitIoPlain(s: Sys, ls: nat, d0: Disk)
    requires Inv(s, ls, d0) && Enabled(s, ls, CommitIo) && s.mode.pos != |s.mode.lh|
    ensures Inv(Next(s, ls, CommitIo), ls, d0)
  {
    hide GoodDisk, ReadHead, CommitWrites, Overlaid, ApplyGroups, ApplyMods, Apply, P.Inv;
    DiskAdvances(s, ls);
  }

  lemma IdInvCommit(s: Sys, s': Sys)
    requires IdInv(s) && s.p.base <= s.p.next
    requires s'.groups == s.groups + [s.pending] && s'.pending == [] && s'.p.base == s.p.next
    ensures IdInv(s')
  {
  }

  lemma CommitIoHeader(s: Sys, ls: nat, d0: Disk)
    requires Inv(s, ls, d0) && Enabled(s, ls, CommitIo) && s.mode.pos == |s.mode.lh|
    ensures Inv(Next(s, ls, CommitIo), ls, d0)
  {
    hide GoodDisk, ReadHead, CommitWrites, Overlaid, ApplyMods, Apply, SameHome, IdInv;
    var s' := Next(s, ls, CommitIo);
    DiskAdvances(s, ls);
    P.BaseAdvance(s.p);
    IdInvCommit(s, s');
    var old0 := ApplyGroups(d0, s.groups);
    assert s'.groups[..|s'.groups| - 1] == s.groups;
    assert ApplyGroups(d0, s'.groups) == ApplyMods(old0, s.pending);
    ApplyModsHome(s.durable, old0, ls, s.pending);
    SameHomeTrans(s'.durable, ApplyMods(s.durable, s.pending), ApplyMods(old0, s.pending), ls);
    assert |s.mode.start| == |s'.durable|;
  }

  lemma IdInvRaise(s: Sys, s': Sys)
    requires IdInv(s) && s'.groups == s.groups && s'.pending == [] && s'.p.base >= s.p.base
    ensures IdInv(s')
  {
  }

  lemma InvFinish(s: Sys, ls: nat, d0: Disk, t: nat)
    requires Inv(s, ls, d0) && Enabled(s, ls, Finish(t))
    ensures Inv(Next(s, ls, Finish(t)), ls, d0)
  {
    hide Healed, Word, PutEntries, RecoverWrites, Overlaid, ApplyGroups, Apply, IdInv;
    var s' := Next(s, ls, Finish(t));
    P.InvNext(s.p, P.Commit(t));
    P.InvNext(P.Next(s.p, P.Commit(t)), P.Done(t));
    CommitPrefix(s.mode.start, ls, s.mode.lh, s.mode.vals, s.mode.pos);
    assert s.pending == [];
    if s.mode.lh == [] {
      assert Writes(s, ls) == [];
      ApplyNone(s.mode.start);
    }
    assert Clean(s.disk, ls, s.durable);
    IdInvRaise(s, s');
  }

  lemma InvCrash(s: Sys, ls: nat, d0: Disk)
    requires Inv(s, ls, d0)
    ensures Inv(Next(s, ls, Crash), ls, d0)
  {
    hide GoodDisk, Healed, Word, PutEntries, RecoverWrites, CommitWrites, Overlaid, ApplyGroups, Apply;
    AlwaysHeals(s, ls);
    P.InvBoot(Reboot(s.p));
    assert RecoverWrites(s.disk, ls)[..0] == [];
    ApplyNone(s.disk);
  }

  lemma InvRecoverIo(s: Sys, ls: nat, d0: Disk)
    requires Inv(s, ls, d0) && Enabled(s, ls, RecoverIo)
    ensures Inv(Next(s, ls, RecoverIo), ls, d0)
  {
    hide GoodDisk, Healed, Word, PutEntries, RecoverWrites, CommitWrites, Overlaid, ApplyGroups, Apply, P.Inv;
    RecoverWritesInRange(s.mode.start, ls, s.mode.pos);
    ApplyNext(s.mode.start, RecoverWrites(s.mode.start, ls), s.mode.pos);
  }

  lemma InvRestart(s: Sys, ls: nat, d0: Disk)
    requires Inv(s, ls, d0) && Enabled(s, ls, Restart)
    ensures Inv(Next(s, ls, Restart), ls, d0)
  {
    hide Healed, Word, PutEntries, RecoverWrites, CommitWrites, Overlaid, ApplyGroups, Apply, P.Inv;
    RecoverPrefix(s.mode.start, ls, s.durable, s.mode.pos);
    assert Clean(s.disk, ls, s.durable);
  }

  lemma InvNext(s: Sys, ls: nat, d0: Disk, e: Event)
    requires Inv(s, ls, d0) && Enabled(s, ls, e)
    ensures Inv(Next(s, ls, e), ls, d0)
  {
    hide Inv, Next;
    match e
    case Begin(t) => InvBegin(s, ls, d0, t);
    case Modify(t, b, data) => InvModify(s, ls, d0, t, b, data);
    case End(t) => InvEnd(s, ls, d0, t);
    case CommitIo =>
      if s.mode.pos == |s.mode.lh| { CommitIoHeader(s, ls, d0); } else { CommitIoPlain(s, ls, d0); }
    case Finish(t) => InvFinish(s, ls, d0, t);
    case Crash => InvCrash(s, ls, d0);
    case RecoverIo => InvRecoverIo(s, ls, d0);
    case Restart => InvRestart(s, ls, d0);
  }

  // ------------------------------------------------------------------
  // Whole runs
  // ------------------------------------------------------------------

  ghost predicate Legal(s: Sys, ls: nat, es: seq<Event>)
    decreases es
  {
    es == [] || (Enabled(s, ls, es[0]) && Legal(Next(s, ls, es[0]), ls, es[1..]))
  }

  ghost function After(s: Sys, ls: nat, es: seq<Event>): Sys
    requires Legal(s, ls, es)
    decreases es
  {
    if es == [] then s else After(Next(s, ls, es[0]), ls, es[1..])
  }

  lemma {:induction false} InvAfter(s: Sys, ls: nat, d0: Disk, es: seq<Event>)
    requires Inv(s, ls, d0) && Legal(s, ls, es)
    ensures Inv(After(s, ls, es), ls, d0)
    decreases es
  {
    hide Inv, Next;
    if es != [] {
      InvNext(s, ls, d0, es[0]);
      InvAfter(Next(s, ls, es[0]), ls, d0, es[1..]);
    }
  }

  predicate Open(s: Sys, t: int) {
    0 <= t < |s.p.tasks| && s.p.tasks[t].InOp?
  }

  ghost predicate Quiet(s: Sys) {
    s.mode.Up? && s.p.v.outstanding == 0
  }

  /** In every reachable state: recovery would produce `durable`, which is the
      initial disk with all committed groups applied in order; groups hold
      disjoint sets of operations, none of them still open; and with no
      operation open the disk itself is what reads see. */
  lemma JournalIsAtomic(s: Sys, ls: nat, d0: Disk, es: seq<Event>)
    requires Start(s, ls, d0) && Legal(s, ls, es)
    ensures var z := After(s, ls, es);
            && HealsTo(z.disk, ls, z.durable)
            && SameHome(z.durable, ApplyGroups(d0, z.groups), ls)
            && (forall g, h, i, j :: 0 <= g < h < |z.groups| && 0 <= i < |z.groups[g]| && 0 <= j < |z.groups[h]| ==>
                  z.groups[g][i].id != z.groups[h][j].id)
            && (forall g, i, t :: 0 <= g < |z.groups| && 0 <= i < |z.groups[g]| && Open(z, t) ==>
                  z.groups[g][i].id != z.p.tasks[t].id)
            && (Quiet(z) ==> z.dirty == map[] && SameHome(z.disk, ApplyGroups(d0, z.groups), ls))
  {
    InvStart(s, ls, d0);
    InvAfter(s, ls, d0, es);
    var z := After(s, ls, es);
    hide HealsTo, ApplyGroups, Apply, GoodDisk, ReadHead, CommittingInv, RecoveringInv, Logical, After, Legal;
    AlwaysHeals(z, ls);
    if Quiet(z) {
      assert z.p.v.lh == [];
      assert z.dirty == map[];
      SameHomeTrans(z.disk, z.durable, ApplyGroups(d0, z.groups), ls);
    }
  }

  predicate RecoveryOnly(es: seq<Event>) {
    forall i :: 0 <= i < |es| ==> es[i].Crash? || es[i].RecoverIo? || es[i].Restart?
  }

  lemma {:induction false} RecoveryKeepsDurable(s: Sys, ls: nat, es: seq<Event>)
    requires Legal(s, ls, es) && RecoveryOnly(es)
    ensures After(s, ls, es).durable == s.durable && After(s, ls, es).groups == s.groups
    decreases es
  {
    if es != [] {
      hide RecoverWrites, CommitWrites, Overlaid;
      RecoveryKeepsDurable(Next(s, ls, es[0]), ls, es[1..]);
    }
  }

  /** Crash at any point of any run, let recovery be cut short by further
      crashes any number of times: once the system is up again its disk holds
      exactly the groups that had committed before the first crash. */
  lemma CrashLosesNothingCommitted(s: Sys, ls: nat, d0: Disk, es: seq<Event>, rs: seq<Event>)
    requires Start(s, ls, d0) && Legal(s, ls, es)
    requires RecoveryOnly(rs) && rs != [] && rs[0].Crash? && Legal(After(s, ls, es), ls, rs)
    requires After(After(s, ls, es), ls, rs).mode.Up?
    ensures var z := After(After(s, ls, es), ls, rs);
            && Clean(z.disk, ls, After(s, ls, es).durable)
            && SameHome(z.disk, ApplyGroups(d0, After(s, ls, es).groups), ls)
            && z.dirty == map[] && z.pending == []
  {
    InvStart(s, ls, d0);
    InvAfter(s, ls, d0, es);
    var m := After(s, ls, es);
    InvAfter(m, ls, d0, rs);
    RecoveryKeepsDurable(m, ls, rs);
    RecoveryLeavesNothingOpen(m, ls, rs);
    var z := After(m, ls, rs);
    hide HealsTo, ApplyGroups, Apply, GoodDisk, ReadHead, CommittingInv, RecoveringInv, Logical, After, Legal;
    SameHomeTrans(z.disk, z.durable, ApplyGroups(d0, z.groups), ls);
  }

  lemma {:induction false} RecoveryLeavesNothingOpen(s: Sys, ls: nat, es: seq<Event>)
    requires Legal(s, ls, es) && RecoveryOnly(es)
    requires (es != [] && es[0].Crash?) || (s.dirty == map[] && s.pending == [])
    ensures After(s, ls, es).dirty == map[] && After(s, ls, es).pending == []
    decreases es
  {
    if es != [] {
      hide RecoverWrites, CommitWrites, Overlaid;
      RecoveryLeavesNothingOpen(Next(s, ls, es[0]), ls, es[1..]);
    }
  }
}
