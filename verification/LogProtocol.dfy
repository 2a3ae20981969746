/** The group-commit protocol of the log: reservation, absorption, waiting and
    the hand-over to the committing task.

    One `View` holds the fields of `struct log` and of its semaphore.  The
    functions on it are the atomic sections of the code: a spinlock only turns
    interrupts off on the one CPU, so a section runs until its task blocks. */
module LogProtocol {
  import opened Common

  const MAX_OPEN_BLOCKS: nat := 10
  const LOG_SIZE: nat := 3 * MAX_OPEN_BLOCKS

  type TaskId = nat

  datatype View = View(
    lh: seq<nat>,          // log->lh.blocks[0..n)
    outstanding: int,
    committing: bool,
    val: int,              // wait_sem.val
    queue: seq<TaskId>)    // wait_sem.waiting_tasks, oldest first

  const BootView := View([], 0, false, 0, [])

  // ------------------------------------------------------------------
  // Atomic sections on the shared fields
  // ------------------------------------------------------------------

  predicate HasRoom(v: View) {
    !v.committing && |v.lh| + (v.outstanding + 1) * MAX_OPEN_BLOCKS <= LOG_SIZE
  }

  /** One uninterrupted stretch of the loop in log_begin_op by task `t`: it
      ends by entering the operation or by queueing `t` on the semaphore.
      Spare semaphore credits are consumed by further turns of the loop. */
  function BeginSection(v: View, t: TaskId): (View, bool)
    decreases v.val
  {
    if HasRoom(v) then (v.(outstanding := v.outstanding + 1), true)
    else if v.val - 1 < 0 then (v.(val := v.val - 1, queue := v.queue + [t]), false)
    else BeginSection(v.(val := v.val - 1), t)
  }

  /** sem_signal(&wait_sem), with the woken task if there is one. */
  function Signal(v: View): (View, seq<TaskId>) {
    if v.val + 1 <= 0 && v.queue != [] then
      (v.(val := v.val + 1, queue := v.queue[1..]), v.queue[..1])
    else
      (v.(val := v.val + 1), [])
  }

  /** First section of log_end_op: the second component says whether the
      caller must commit, the third lists the task that was woken. */
  function EndSection(v: View): (View, bool, seq<TaskId>) {
    var w := v.(outstanding := v.outstanding - 1);
    if w.outstanding == 0 then (w.(committing := true), true, [])
    else if w.queue != [] then var (u, woken) := Signal(w); (u, false, woken)
    else (w, false, [])
  }

  /** Last section of log_end_op, after commit() has emptied the header. */
  function DoneSection(v: View): (View, seq<TaskId>) {
    Signal(v.(committing := false))
  }

  /** log_write: absorb a block that is already logged, else append it. */
  function LogBlock(lh: seq<nat>, b: nat): seq<nat> {
    if b in lh then lh else lh + [b]
  }

  // ------------------------------------------------------------------
  // The same sections as code
  // ------------------------------------------------------------------

  class Log {
    var n: nat
    var blocks: array<nat>
    var outstanding: int
    var committing: bool
    var val: int
    var queue: seq<TaskId>

    ghost predicate Valid() reads this, blocks {
      blocks.Length == LOG_SIZE && n <= LOG_SIZE
    }

    ghost function Abs(): View
      requires Valid()
      reads this, blocks
    {
      View(blocks[..n], outstanding, committing, val, queue)
    }

    constructor ()
      ensures Valid() && fresh(blocks) && Abs() == BootView
    {
      blocks := new nat[LOG_SIZE];
      n, outstanding, committing, val, queue := 0, 0, false, 0, [];
    }

    /** Runs until the operation is entered or the task must sleep. */
    method BeginOp(t: TaskId) returns (entered: bool)
      requires Valid()
      modifies this
      ensures Valid() && blocks == old(blocks) && n == old(n)
      ensures (Abs(), entered) == BeginSection(old(Abs()), t)
      ensures entered <==> !old(committing) && old(n) + 10 * old(outstanding) + 10 <= 30
      ensures entered ==> outstanding == old(outstanding) + 1 && queue == old(queue) && val <= old(val)
      ensures !entered ==> outstanding == old(outstanding) && queue == old(queue) + [t] && val < 0
    {
      while true
        invariant Valid() && blocks == old(blocks) && n == old(n)
        invariant BeginSection(Abs(), t) == BeginSection(old(Abs()), t)
        invariant committing == old(committing) && outstanding == old(outstanding) && queue == old(queue) && val <= old(val)
        decreases val
      {
        if committing {
          val := val - 1;
          if val < 0 {
            queue := queue + [t];
            return false;
          }
        } else if n + (outstanding + 1) * MAX_OPEN_BLOCKS > LOG_SIZE {
          val := val - 1;
          if val < 0 {
            queue := queue + [t];
            return false;
          }
        } else {
          outstanding := outstanding + 1;
          return true;
        }
      }
    }

    method SemSignal() returns (woken: seq<TaskId>)
      requires Valid() && (val < 0 ==> queue != [])
      modifies this`val, this`queue
      ensures Valid() && (Abs(), woken) == Signal(old(Abs()))
    {
      val := val + 1;
      woken := [];
      if val <= 0 && queue != [] {
        woken, queue := queue[..1], queue[1..];
      }
    }

    method EndOpFirst() returns (doCommit: bool, woken: seq<TaskId>)
      requires Valid() && (val < 0 ==> queue != [])
      modifies this
      ensures Valid() && blocks == old(blocks)
      ensures (Abs(), doCommit, woken) == EndSection(old(Abs()))
      ensures (doCommit <==> old(outstanding) == 1) && outstanding == old(outstanding) - 1 && committing == (old(committing) || doCommit)
      ensures woken == if !doCommit && old(val) < 0 then old(queue)[..1] else []
    {
      doCommit, woken := false, [];
      outstanding := outstanding - 1;
      if outstanding == 0 {
        doCommit, committing := true, true;
      } else if queue != [] {
        woken := SemSignal();
      }
    }

    method EndOpLast() returns (woken: seq<TaskId>)
      requires Valid() && (val < 0 ==> queue != [])
      modifies this
      ensures Valid() && blocks == old(blocks)
      ensures (Abs(), woken) == DoneSection(old(Abs()))
      ensures !committing && woken == if old(val) < 0 then old(queue)[..1] else []
    {
      committing := false;
      woken := SemSignal();
    }

    /** The search loop of log_write.  The index it stores to is in bounds as
        soon as there is strict room for a block that is not yet logged. */
    method LogWrite(b: nat)
      requires Valid() && (b in blocks[..n] || n < LOG_SIZE)
      modifies this`n, blocks
      ensures Valid() && Abs() == old(Abs()).(lh := LogBlock(old(Abs()).lh, b))
    {
      var i := 0;
      while i < n && blocks[i] != b
        invariant i <= n
        invariant b !in blocks[..i]
      {
        i := i + 1;
      }
      assert i < n ==> b in blocks[..n];
      assert i == n ==> blocks[..n] == blocks[..i];
      ghost var before := blocks[..n];
      blocks[i] := b;
      if i == n {
        n := n + 1;
        assert blocks[..n] == before + [b];
      } else {
        assert blocks[..n] == before;
      }
    }
  }

  // ------------------------------------------------------------------
  // All interleavings
  // ------------------------------------------------------------------

  /** Where a task stands.  `InOp` carries the operation's number and the
      distinct blocks it has logged so far. */
  datatype Pc =
    | Out
    | Waiting
    | Woken
    | InOp(id: nat, logged: set<nat>)
    | Commits

  /** `next` numbers operations; `base` is the first number of the open group. */
  datatype State = State(v: View, tasks: seq<Pc>, next: nat, base: nat)

  datatype Step =
    | Begin(t: TaskId)
    | LogWrite(t: TaskId, b: nat)
    | End(t: TaskId)
    | Commit(t: TaskId)
    | Done(t: TaskId)

  predicate Boot(s: State) {
    s.v == BootView && (forall t :: 0 <= t < |s.tasks| ==> s.tasks[t] == Out) && s.base == s.next
  }

  /** The caller's side of the contract: operations begin before they log and
      end, and each logs at most MAX_OPEN_BLOCKS distinct blocks. */
  predicate Enabled(s: State, e: Step) {
    e.t < |s.tasks| &&
    match e
    case Begin(t) => s.tasks[t].Out? || s.tasks[t].Woken?
    case LogWrite(t, b) =>
      s.tasks[t].InOp? && (b in s.tasks[t].logged || |s.tasks[t].logged| < MAX_OPEN_BLOCKS)
    case End(t) => s.tasks[t].InOp?
    case Commit(t) => s.tasks[t].Commits?
    case Done(t) => s.tasks[t].Commits? && s.v.lh == []
  }

  function Wake(tasks: seq<Pc>, woken: seq<TaskId>): seq<Pc> {
    if woken != [] && woken[0] < |tasks| then tasks[woken[0] := Woken] else tasks
  }

  function Next(s: State, e: Step): State
    requires Enabled(s, e)
  {
    match e
    case Begin(t) =>
      var (v, entered) := BeginSection(s.v, t);
      if entered then State(v, s.tasks[t := InOp(s.next, {})], s.next + 1, s.base)
      else s.(v := v, tasks := s.tasks[t := Waiting])
    case LogWrite(t, b) =>
      s.(v := s.v.(lh := LogBlock(s.v.lh, b)),
         tasks := s.tasks[t := s.tasks[t].(logged := s.tasks[t].logged + {b})])
    case End(t) =>
      var (v, commits, woken) := EndSection(s.v);
      s.(v := v, tasks := Wake(s.tasks[t := if commits then Commits else Out], woken))
    case Commit(t) =>
      s.(v := s.v.(lh := []), base := s.next)
    case Done(t) =>
      var (v, woken) := DoneSection(s.v);
      s.(v := v, tasks := Wake(s.tasks[t := Out], woken))
  }

  function Reserved(p: Pc): nat {
    if p.InOp? && |p.logged| <= MAX_OPEN_BLOCKS then MAX_OPEN_BLOCKS - |p.logged| else 0
  }

  /** Blocks that outstanding operations may still add to the log. */
  function Unused(tasks: seq<Pc>): nat {
    if tasks == [] then 0 else Unused(tasks[..|tasks| - 1]) + Reserved(tasks[|tasks| - 1])
  }

  function Ops(tasks: seq<Pc>): nat {
    if tasks == [] then 0
    else Ops(tasks[..|tasks| - 1]) + if tasks[|tasks| - 1].InOp? then 1 else 0
  }

  predicate QueueInv(s: State) {
    && (forall t :: t in s.v.queue ==> t < |s.tasks|)
    && (forall t :: 0 <= t < |s.tasks| ==> (s.tasks[t].Waiting? <==> t in s.v.queue))
    && Distinct(s.v.queue)
    && |s.v.queue| == if s.v.val < 0 then -s.v.val else 0
  }

  /** Nobody sleeps unless something that will signal is still to come. */
  predicate NoLostWakeup(s: State) {
    s.v.queue != [] ==>
      s.v.outstanding > 0 || s.v.committing || exists t :: 0 <= t < |s.tasks| && s.tasks[t].Woken?
  }

  predicate OpInv(s: State) {
    && s.base <= s.next
    && (forall t :: 0 <= t < |s.tasks| && s.tasks[t].InOp? ==>
          && s.base <= s.tasks[t].id < s.next
          && |s.tasks[t].logged| <= MAX_OPEN_BLOCKS
          && forall b :: b in s.tasks[t].logged ==> b in s.v.lh)
    && (forall t, u :: 0 <= t < u < |s.tasks| && s.tasks[t].InOp? && s.tasks[u].InOp? ==>
          s.tasks[t].id != s.tasks[u].id)
  }

  predicate SpaceInv(s: State) {
    && Distinct(s.v.lh)
    && s.v.outstanding == Ops(s.tasks)
    && |s.v.lh| + Unused(s.tasks) <= LOG_SIZE
    && (s.v.outstanding == 0 && !s.v.committing ==> s.v.lh == [])
  }

  predicate CommitInv(s: State) {
    && (s.v.committing <==> exists t :: 0 <= t < |s.tasks| && s.tasks[t].Commits?)
    && (forall t, u :: 0 <= t < u < |s.tasks| && s.tasks[t].Commits? ==> !s.tasks[u].Commits?)
    && (s.v.committing ==> s.v.outstanding == 0)
  }

  predicate Inv(s: State) {
    SpaceInv(s) && CommitInv(s) && QueueInv(s) && NoLostWakeup(s) && OpInv(s)
  }

  // ------------------------------------------------------------------
  // Proofs
  // ------------------------------------------------------------------

  lemma {:induction false} CountUpdate(tasks: seq<Pc>, t: nat, p: Pc)
    requires t < |tasks|
    ensures Unused(tasks[t := p]) == Unused(tasks) - Reserved(tasks[t]) + Reserved(p)
    ensures Ops(tasks[t := p]) ==
            Ops(tasks) - (if tasks[t].InOp? then 1 else 0) + (if p.InOp? then 1 else 0)
  {
    var m := |tasks| - 1;
    if t == m {
      assert tasks[t := p][..m] == tasks[..m];
    } else {
      CountUpdate(tasks[..m], t, p);
      assert tasks[t := p][..m] == tasks[..m][t := p];
    }
  }

  lemma {:induction false} OpsPositive(tasks: seq<Pc>, t: nat)
    requires t < |tasks| && tasks[t].InOp?
    ensures Ops(tasks) >= 1 && Unused(tasks) >= Reserved(tasks[t])
  {
    CountUpdate(tasks, t, Out);
  }

  lemma {:induction false} OpsZero(tasks: seq<Pc>)
    requires forall t :: 0 <= t < |tasks| ==> !tasks[t].InOp?
    ensures Ops(tasks) == 0 && Unused(tasks) == 0
  {
    if tasks != [] { OpsZero(tasks[..|tasks| - 1]); }
  }

  /** Unused reservations never exceed one full reservation per operation. */
  lemma {:induction false} UnusedBound(tasks: seq<Pc>)
    ensures Unused(tasks) <= MAX_OPEN_BLOCKS * Ops(tasks)
  {
    if tasks != [] { UnusedBound(tasks[..|tasks| - 1]); }
  }

  /** What one stretch of the begin loop does, whatever credits it eats. */
  lemma {:induction false} BeginEffect(v: View, t: TaskId)
    ensures var (w, entered) := BeginSection(v, t);
            && w.lh == v.lh && w.committing == v.committing
            && entered == HasRoom(v)
            && (entered ==> w == v.(outstanding := v.outstanding + 1))
            && (!entered ==> w == v.(val := w.val, queue := v.queue + [t]) &&
                             w.val == if v.val <= 0 then v.val - 1 else -1)
    decreases v.val
  {
    if !HasRoom(v) && v.val > 0 { BeginEffect(v.(val := v.val - 1), t); }
  }

  /** Nobody's operation changes, apart from some that end. */
  lemma OpInvKept(s: State, s': State)
    requires OpInv(s) && s'.base == s.base && s'.next == s.next && s'.v.lh == s.v.lh
    requires |s'.tasks| == |s.tasks|
    requires forall t :: 0 <= t < |s.tasks| && s'.tasks[t].InOp? ==> s'.tasks[t] == s.tasks[t]
    ensures OpInv(s')
  {
  }

  lemma CommitInvKept(s: State, s': State)
    requires CommitInv(s) && |s'.tasks| == |s.tasks|
    requires s'.v.committing == s.v.committing && (s.v.committing ==> s'.v.outstanding == s.v.outstanding)
    requires forall t :: 0 <= t < |s.tasks| ==> (s'.tasks[t].Commits? <==> s.tasks[t].Commits?)
    ensures CommitInv(s')
  {
    if s.v.committing {
      var t :| 0 <= t < |s.tasks| && s.tasks[t].Commits?;
      assert s'.tasks[t].Commits?;
    }
  }

  lemma QueueInvKept(s: State, s': State)
    requires QueueInv(s) && |s'.tasks| == |s.tasks| && s'.v.queue == s.v.queue && s'.v.val == s.v.val
    requires forall t :: 0 <= t < |s.tasks| ==> (s'.tasks[t].Waiting? <==> s.tasks[t].Waiting?)
    ensures QueueInv(s')
  {
  }

  lemma CommitInvDone(s: State, s': State, t: TaskId)
    requires CommitInv(s) && |s'.tasks| == |s.tasks| && t < |s.tasks| && s.tasks[t].Commits?
    requires !s'.v.committing && !s'.tasks[t].Commits?
    requires forall u :: 0 <= u < |s.tasks| && u != t ==> (s'.tasks[u].Commits? <==> s.tasks[u].Commits?)
    ensures CommitInv(s')
  {
  }

  /** Logging a block, absorbed or not. */
  lemma OpInvLog(s: State, t: TaskId, b: nat)
    requires OpInv(s) && Enabled(s, LogWrite(t, b))
    ensures OpInv(Next(s, LogWrite(t, b)))
  {
    var logged := s.tasks[t].logged;
    assert |logged + {b}| == if b in logged then |logged| else |logged| + 1 by {
      if b in logged { assert logged + {b} == logged; }
    }
  }

  /** A new log entry is paid for from its operation's own reservation. */
  lemma SpaceInvLog(s: State, t: TaskId, b: nat)
    requires SpaceInv(s) && OpInv(s) && Enabled(s, LogWrite(t, b))
    ensures SpaceInv(Next(s, LogWrite(t, b))) && s.v.outstanding >= 1
  {
    var logged := s.tasks[t].logged;
    var s' := Next(s, LogWrite(t, b));
    CountUpdate(s.tasks, t, s'.tasks[t]);
    OpsPositive(s.tasks, t);
    if b in logged {
      assert logged + {b} == logged;
    } else {
      assert |logged + {b}| == |logged| + 1;
    }
  }

  /** Joining the queue. */
  lemma QueueInvSleep(s: State, s': State, t: TaskId)
    requires QueueInv(s) && t < |s.tasks| && !s.tasks[t].Waiting?
    requires s'.tasks == s.tasks[t := Waiting] && s'.v.queue == s.v.queue + [t]
    requires s'.v.val == if s.v.val <= 0 then s.v.val - 1 else -1
    ensures QueueInv(s')
  {
  }

  /** Waking the oldest waiter. */
  lemma QueueInvWake(s: State, s': State)
    requires QueueInv(s) && |s'.tasks| == |s.tasks| && s.v.queue != []
    requires s'.v.queue == s.v.queue[1..] && s'.v.val == s.v.val + 1
    requires forall t :: 0 <= t < |s.tasks| ==>
               (s'.tasks[t].Waiting? <==> s.tasks[t].Waiting? && t != s.v.queue[0])
    ensures QueueInv(s')
  {
    var q := s.v.queue;
    assert q == [q[0]] + q[1..];
    forall t | t in q[1..] ensures t in q && t != q[0] {
    }
  }

  lemma InvBoot(s: State)
    requires Boot(s)
    ensures Inv(s)
  {
    OpsZero(s.tasks);
  }

  lemma InvBeginEnters(s: State, t: TaskId)
    requires Inv(s) && Enabled(s, Begin(t)) && HasRoom(s.v)
    ensures Inv(Next(s, Begin(t)))
  {
    var s' := Next(s, Begin(t));
    assert s'.v == s.v.(outstanding := s.v.outstanding + 1);
    assert s'.tasks == s.tasks[t := InOp(s.next, {})];
    CountUpdate(s.tasks, t, InOp(s.next, {}));
    UnusedBound(s.tasks);
    QueueInvKept(s, s');
    CommitInvKept(s, s');
    assert OpInv(s') by { hide QueueInv, CommitInv, SpaceInv, NoLostWakeup; }
  }

  lemma InvBeginSleeps(s: State, t: TaskId)
    requires Inv(s) && Enabled(s, Begin(t)) && !HasRoom(s.v)
    ensures Inv(Next(s, Begin(t)))
  {
    BeginEffect(s.v, t);
    var s' := Next(s, Begin(t));
    assert s'.tasks == s.tasks[t := Waiting];
    CountUpdate(s.tasks, t, Waiting);
    CommitInvKept(s, s');
    OpInvKept(s, s');
    QueueInvSleep(s, s', t);
  }

  lemma InvBegin(s: State, t: TaskId)
    requires Inv(s) && Enabled(s, Begin(t))
    ensures Inv(Next(s, Begin(t)))
  {
    hide Inv, Next;
    if HasRoom(s.v) { InvBeginEnters(s, t); } else { InvBeginSleeps(s, t); }
  }

  lemma InvLogWrite(s: State, t: TaskId, b: nat)
    requires Inv(s) && Enabled(s, LogWrite(t, b))
    ensures Inv(Next(s, LogWrite(t, b)))
  {
    var s' := Next(s, LogWrite(t, b));
    SpaceInvLog(s, t, b);
    QueueInvKept(s, s');
    CommitInvKept(s, s');
    OpInvLog(s, t, b);
  }

  lemma InvEndLast(s: State, t: TaskId)
    requires Inv(s) && Enabled(s, End(t)) && s.v.outstanding == 1
    ensures Inv(Next(s, End(t)))
  {
    var s' := Next(s, End(t));
    assert s'.tasks == s.tasks[t := Commits];
    CountUpdate(s.tasks, t, Commits);
    QueueInvKept(s, s');
    OpInvKept(s, s');
    assert s'.tasks[t].Commits?;
  }

  lemma InvEndWakes(s: State, t: TaskId)
    requires Inv(s) && Enabled(s, End(t)) && s.v.outstanding > 1 && s.v.queue != []
    ensures Inv(Next(s, End(t)))
  {
    var s' := Next(s, End(t));
    var w := s.v.queue[0];
    assert w in s.v.queue;
    var mid := s.tasks[t := Out];
    assert s'.tasks == mid[w := Woken];
    CountUpdate(s.tasks, t, Out);
    CountUpdate(mid, w, Woken);
    QueueInvWake(s, s');
    CommitInvKept(s, s');
    OpInvKept(s, s');
    assert s'.v.outstanding > 0;
  }

  lemma InvEndQuiet(s: State, t: TaskId)
    requires Inv(s) && Enabled(s, End(t)) && s.v.outstanding > 1 && s.v.queue == []
    ensures Inv(Next(s, End(t)))
  {
    var s' := Next(s, End(t));
    assert s'.tasks == s.tasks[t := Out];
    CountUpdate(s.tasks, t, Out);
    QueueInvKept(s, s');
    CommitInvKept(s, s');
    OpInvKept(s, s');
  }

  lemma InvEnd(s: State, t: TaskId)
    requires Inv(s) && Enabled(s, End(t))
    ensures Inv(Next(s, End(t)))
  {
    assert s.v.outstanding >= 1 by { OpsPositive(s.tasks, t); }
    hide Inv, Next;
    if s.v.outstanding == 1 {
      InvEndLast(s, t);
    } else if s.v.queue != [] {
      InvEndWakes(s, t);
    } else {
      InvEndQuiet(s, t);
    }
  }

  lemma InvCommit(s: State, t: TaskId)
    requires Inv(s) && Enabled(s, Commit(t))
    ensures Inv(Next(s, Commit(t)))
  {
    assert s.v.committing;
    forall u | 0 <= u < |s.tasks| ensures !s.tasks[u].InOp? {
      if s.tasks[u].InOp? { OpsPositive(s.tasks, u); }
    }
    CommitInvKept(s, Next(s, Commit(t)));
    QueueInvKept(s, Next(s, Commit(t)));
  }

  /** While a commit runs no operation is open, so a new group can start. */
  lemma BaseAdvance(s: State)
    requires Inv(s) && s.v.committing
    ensures Inv(s.(base := s.next))
  {
    var s' := s.(base := s.next);
    forall u | 0 <= u < |s.tasks| ensures !s.tasks[u].InOp? {
      if s.tasks[u].InOp? { OpsPositive(s.tasks, u); }
    }
    CommitInvKept(s, s');
    QueueInvKept(s, s');
  }

  lemma InvDone(s: State, t: TaskId)
    requires Inv(s) && Enabled(s, Done(t))
    ensures Inv(Next(s, Done(t)))
  {
    var s' := Next(s, Done(t));
    var mid := s.tasks[t := Out];
    assert s.v.committing;
    CountUpdate(s.tasks, t, Out);
    if s.v.queue == [] {
      assert s'.tasks == mid;
      QueueInvNoWaiter(s, s');
    } else {
      var w := s.v.queue[0];
      assert w in s.v.queue;
      assert s'.tasks == mid[w := Woken];
      CountUpdate(mid, w, Woken);
      QueueInvWake(s, s');
      assert s'.tasks[w].Woken?;
    }
    OpInvKept(s, s');
    CommitInvDone(s, s', t);
  }

  /** A signal with nobody waiting leaves a spare credit. */
  lemma QueueInvNoWaiter(s: State, s': State)
    requires QueueInv(s) && |s'.tasks| == |s.tasks| && s.v.queue == [] == s'.v.queue
    requires s'.v.val == s.v.val + 1
    requires forall t :: 0 <= t < |s.tasks| ==> (s'.tasks[t].Waiting? <==> s.tasks[t].Waiting?)
    ensures QueueInv(s')
  {
  }

  lemma InvNext(s: State, e: Step)
    requires Inv(s) && Enabled(s, e)
    ensures Inv(Next(s, e))
  {
    match e
    case Begin(t) => InvBegin(s, t);
    case LogWrite(t, b) => InvLogWrite(s, t, b);
    case End(t) => InvEnd(s, t);
    case Commit(t) => InvCommit(s, t);
    case Done(t) => InvDone(s, t);
  }

  // ------------------------------------------------------------------
  // Whole runs
  // ------------------------------------------------------------------

  predicate Legal(s: State, es: seq<Step>)
    decreases es
  {
    es == [] || (Enabled(s, es[0]) && Legal(Next(s, es[0]), es[1..]))
  }

  function After(s: State, es: seq<Step>): State
    requires Legal(s, es)
    decreases es
  {
    if es == [] then s else After(Next(s, es[0]), es[1..])
  }

  lemma {:induction false} InvAfter(s: State, es: seq<Step>)
    requires Inv(s) && Legal(s, es)
    ensures Inv(After(s, es))
    decreases es
  {
    if es != [] {
      InvNext(s, es[0]);
      InvAfter(Next(s, es[0]), es[1..]);
    }
  }

  /** In every interleaving the reserved space is enough, header entries are
      distinct, a commit excludes open operations and no wakeup is lost. */
  lemma LogIsSafe(s: State, es: seq<Step>)
    requires Boot(s) && Legal(s, es)
    ensures var v := After(s, es).v;
            && |v.lh| + Unused(After(s, es).tasks) <= LOG_SIZE
            && Distinct(v.lh)
            && (v.committing ==> v.outstanding == 0)
    ensures NoLostWakeup(After(s, es))
    ensures forall t, b :: Enabled(After(s, es), LogWrite(t, b)) ==>
              b in After(s, es).v.lh || |After(s, es).v.lh| < LOG_SIZE
  {
    InvBoot(s);
    InvAfter(s, es);
    var z := After(s, es);
    forall t, b | Enabled(z, LogWrite(t, b)) && b !in z.v.lh ensures |z.v.lh| < LOG_SIZE {
      OpsPositive(z.tasks, t);
    }
  }

  lemma {:induction false} UnusedCovers(tasks: seq<Pc>, t: TaskId)
    requires t < |tasks|
    ensures Reserved(tasks[t]) <= Unused(tasks)
  {
    if t < |tasks| - 1 { UnusedCovers(tasks[..|tasks| - 1], t); }
  }

  /** The assertion `lh.n < LOG_SIZE` at the head of log_write is stronger than
      what the protocol gives.  It holds for every operation that has logged fewer
      than ten blocks; where it fails, every open operation has used up its
      reservation and the block is one that the caller has logged before. */
  lemma FullLogOnlyAbsorbs(s: State, es: seq<Step>, t: TaskId, b: nat)
    requires Boot(s) && Legal(s, es) && Enabled(After(s, es), LogWrite(t, b))
    ensures var z := After(s, es);
            |z.v.lh| < LOG_SIZE ||
            (|z.v.lh| == LOG_SIZE && Unused(z.tasks) == 0 && b in z.tasks[t].logged && |z.tasks[t].logged| == MAX_OPEN_BLOCKS)
  {
    InvBoot(s);
    InvAfter(s, es);
    UnusedCovers(After(s, es).tasks, t);
  }

  lemma {:induction false} LegalAppend(s: State, es: seq<Step>, fs: seq<Step>)
    requires Legal(s, es) && Legal(After(s, es), fs)
    ensures Legal(s, es + fs) && After(s, es + fs) == After(After(s, es), fs)
    decreases es
  {
    if es == [] {
      assert es + fs == fs;
    } else {
      assert (es + fs)[0] == es[0] && (es + fs)[1..] == es[1..] + fs;
      LegalAppend(Next(s, es[0]), es[1..], fs);
    }
  }

  lemma LegalSnoc(s: State, es: seq<Step>, e: Step)
    requires Legal(s, es) && Enabled(After(s, es), e)
    ensures Legal(s, es + [e]) && After(s, es + [e]) == Next(After(s, es), e)
  {
    var z := After(s, es);
    assert [e][1..] == [];
    assert Legal(Next(z, e), []) && Legal(z, [e]);
    LegalAppend(s, es, [e]);
  }

  function Span(lo: nat, k: nat): (r: set<nat>)
    ensures |r| == k && forall x :: x in r <==> lo <= x < lo + k
  {
    if k == 0 then {} else Span(lo, k - 1) + {lo + k - 1}
  }

  function Iota(n: nat): seq<nat> { seq(n, i => i) }

  /** `z` is `s` after task `t` has logged `k` fresh blocks. */
  predicate PartFilled(s: State, z: State, t: TaskId, k: nat) {
    && z.v == s.v.(lh := Iota(10 * t + k))
    && t < |z.tasks| == |s.tasks| && z.tasks[t].InOp? && z.tasks[t].logged == Span(10 * t, k)
    && (forall u :: 0 <= u < |s.tasks| && u != t ==> z.tasks[u] == s.tasks[u])
  }

  lemma FillStep(s: State, z: State, t: TaskId, k: nat)
    requires k < 10 && PartFilled(s, z, t, k)
    ensures Enabled(z, LogWrite(t, 10 * t + k))
    ensures PartFilled(s, Next(z, LogWrite(t, 10 * t + k)), t, k + 1)
  {
    var b := 10 * t + k;
    assert LogBlock(z.v.lh, b) == Iota(b + 1);
    assert Span(10 * t, k) + {b} == Span(10 * t, k + 1);
  }

  /** Task `t` logs `k` fresh blocks on top of `10 * t` logged ones. */
  lemma {:induction false} FillOne(s: State, t: TaskId, k: nat) returns (es: seq<Step>)
    requires t < |s.tasks| && k <= 10 && s.v.lh == Iota(10 * t)
    requires s.tasks[t] == InOp(t, {})
    ensures Legal(s, es) && PartFilled(s, After(s, es), t, k)
  {
    if k == 0 {
      es := [];
    } else {
      hide Next, PartFilled, Enabled;
      var pre := FillOne(s, t, k - 1);
      FillStep(s, After(s, pre), t, k - 1);
      LegalSnoc(s, pre, LogWrite(t, 10 * t + k - 1));
      es := pre + [LogWrite(t, 10 * t + k - 1)];
    }
  }

  lemma BeginThree() returns (s: State, es: seq<Step>)
    ensures Boot(s) && Legal(s, es)
    ensures After(s, es) ==
            State(BootView.(outstanding := 3), [InOp(0, {}), InOp(1, {}), InOp(2, {})], 3, 0)
    ensures BootView.lh == Iota(0)
  {
    s := State(BootView, [Out, Out, Out], 0, 0);
    LegalSnoc(s, [], Begin(0));
    LegalSnoc(s, [] + [Begin(0)], Begin(1));
    LegalSnoc(s, [] + [Begin(0)] + [Begin(1)], Begin(2));
    es := [] + [Begin(0)] + [Begin(1)] + [Begin(2)];
  }

  /** `z` has three open operations, the first `m` of which have used up
      their reservation. */
  predicate Filled(z: State, m: nat) {
    && m <= 3 && |z.tasks| == 3 && z.v.lh == Iota(10 * m)
    && (forall u :: m <= u < 3 ==> z.tasks[u] == InOp(u, {}))
    && (m > 0 ==> z.tasks[m - 1].InOp? && z.tasks[m - 1].logged == Span(10 * (m - 1), 10))
  }

  lemma FillNext(z: State, m: nat) returns (es: seq<Step>)
    requires m < 3 && Filled(z, m)
    ensures Legal(z, es) && Filled(After(z, es), m + 1)
  {
    hide Legal, After, Next;
    es := FillOne(z, m, 10);
    assert 10 * m + 10 == 10 * (m + 1);
  }

  lemma {:induction false} FillFirst(m: nat) returns (s: State, es: seq<Step>)
    requires m <= 3
    ensures Boot(s) && Legal(s, es) && Filled(After(s, es), m)
  {
    if m == 0 {
      s, es := BeginThree();
    } else {
      var pre;
      s, pre := FillFirst(m - 1);
      var f := FillNext(After(s, pre), m - 1);
      LegalAppend(s, pre, f);
      es := pre + f;
    }
  }

  /** A run after which the assertion of log_write fails for a block that the
      calling operation has already logged. */
  lemma AssertionCanFail() returns (s: State, es: seq<Step>)
    ensures Boot(s) && Legal(s, es)
    ensures Enabled(After(s, es), LogWrite(2, 20)) && |After(s, es).v.lh| == LOG_SIZE
  {
    s, es := FillFirst(3);
  }
}
