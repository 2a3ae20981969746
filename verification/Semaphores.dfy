/** Semaphores over the scheduler: kernel/semaphore.c.  Interrupts are off
    inside each operation, so tasks interleave only where one blocks, yields or
    is preempted. */
module Semaphores {
  import opened Common
  import opened Scheduler

  /** `waiting` lists waiting_tasks from head to tail: sem_wait offers at the
      head, sem_signal polls at the tail. */
  datatype Sem = Sem(val: int, waiting: seq<nat>, holder: Option<nat>)

  /** What has happened to a semaphore: its first value, how often it was waited
      for and signalled, who had to queue and who was woken, in order, and who
      has been let through without signalling since. */
  datatype Log = Log(init: nat, waits: nat, signals: nat, asked: seq<nat>, woken: seq<nat>, granted: multiset<nat>)

  /** Whether a task has entered sem_wait without having returned from it. */
  datatype Place = Free | InWait(sem: nat)

  datatype Sys = Sys(cpu: Cpu, sems: seq<Sem>, logs: seq<Log>, place: seq<Place>)

  predicate Shape(s: Sys) {
    InTable(s.cpu) && |s.logs| == |s.sems| && |s.place| == |s.cpu.tasks|
  }

  function Tail(q: seq<nat>): nat
    requires q != []
  {
    q[|q| - 1]
  }

  // ------------------------------------------------------------------
  // Operations
  // ------------------------------------------------------------------

  /** sem_wait by the current task: it passes, or queues and gives up the CPU. */
  function Wait(s: Sys, k: nat): Sys
    requires Shape(s) && k < |s.sems|
  {
    var (m, l, t) := (s.sems[k], s.logs[k], s.cpu.cur);
    if m.val - 1 < 0 then
      Sys(Block(s.cpu),
          s.sems[k := m.(val := m.val - 1, waiting := [t] + m.waiting)],
          s.logs[k := l.(waits := l.waits + 1, asked := l.asked + [t])],
          s.place[t := InWait(k)])
    else
      s.(sems := s.sems[k := m.(val := m.val - 1, holder := Some(t))],
         logs := s.logs[k := l.(waits := l.waits + 1, granted := l.granted + multiset{t})])
  }

  /** The rest of sem_wait, when the task that queued is running again. */
  function Return(s: Sys): Sys
    requires Shape(s) && s.place[s.cpu.cur].InWait? && s.place[s.cpu.cur].sem < |s.sems|
  {
    var k := s.place[s.cpu.cur].sem;
    s.(sems := s.sems[k := s.sems[k].(holder := Some(s.cpu.cur))], place := s.place[s.cpu.cur := Free])
  }

  /** sem_signal: the task that has waited longest, if any, becomes ready. */
  function Signal(s: Sys, k: nat): Sys
    requires Shape(s) && k < |s.sems|
    requires s.sems[k].val + 1 <= 0 ==> s.sems[k].waiting != [] && Tail(s.sems[k].waiting) < |s.cpu.tasks|
  {
    var (m, l) := (s.sems[k], s.logs[k]);
    var left := l.granted - multiset{s.cpu.cur};
    if m.val + 1 <= 0 then
      var t := Tail(m.waiting);
      Sys(Wakeup(s.cpu, t),
          s.sems[k := Sem(m.val + 1, m.waiting[..|m.waiting| - 1], None)],
          s.logs[k := l.(signals := l.signals + 1, woken := l.woken + [t], granted := left + multiset{t})],
          s.place)
    else
      s.(sems := s.sems[k := m.(val := m.val + 1, holder := None)],
         logs := s.logs[k := l.(signals := l.signals + 1, granted := left)])
  }

  // ------------------------------------------------------------------
  // The invariant
  // ------------------------------------------------------------------

  /** Those who waited longest are at the tail; nobody is woken out of turn. */
  predicate Fifo(m: Sem, l: Log) {
    && |l.asked| == |l.woken| + |m.waiting|
    && (forall i :: 0 <= i < |l.woken| ==> l.woken[i] == l.asked[i])
    && (forall i :: 0 <= i < |m.waiting| ==> m.waiting[i] == l.asked[|l.asked| - 1 - i])
  }

  predicate SemOk(s: Sys, k: nat)
    requires Shape(s) && k < |s.sems|
  {
    var (m, l) := (s.sems[k], s.logs[k]);
    && |m.waiting| == (if m.val < 0 then -m.val else 0)
    && m.val == l.init - l.waits + l.signals
    && Fifo(m, l) && Distinct(m.waiting)
    && (forall i :: 0 <= i < |m.waiting| ==> m.waiting[i] < |s.place| && s.place[m.waiting[i]] == InWait(k))
  }

  /** A task inside sem_wait is blocked exactly as long as it is queued there. */
  predicate PlaceOk(s: Sys, t: nat)
    requires Shape(s) && t < |s.place|
  {
    s.place[t].InWait? ==>
      && s.place[t].sem < |s.sems| && t != s.cpu.idle
      && s.cpu.tasks[t].state in {Blocked, Ready, Running}
      && (t in s.sems[s.place[t].sem].waiting <==> s.cpu.tasks[t].state == Blocked)
  }

  predicate Inv(s: Sys) {
    && Shape(s) && Scheduler.Inv(s.cpu)
    && (forall k :: 0 <= k < |s.sems| ==> SemOk(s, k))
    && (forall t :: 0 <= t < |s.place| ==> PlaceOk(s, t))
  }

  lemma PickStates(c: Cpu)
    requires Between(c)
    ensures var d := Pick(c);
            && |d.tasks| == |c.tasks| && d.idle == c.idle
            && forall t :: 0 <= t < |c.tasks| && t != c.idle ==> SameBut(c.tasks[t].state, d.tasks[t].state)
  {
    assert forall i :: 0 <= i < |c.queue| ==> c.tasks[c.queue[i]].state == Ready;
  }

  /** Switching leaves who is blocked alone, idle apart. */
  lemma ScheduleStates(c: Cpu)
    requires Scheduler.Inv(c)
    ensures var d := Schedule(c);
            && |d.tasks| == |c.tasks| && d.idle == c.idle
            && forall t :: 0 <= t < |c.tasks| && t != c.idle ==> SameBut(c.tasks[t].state, d.tasks[t].state)
  {
    hide Pick;
    PutAwayInv(c);
    PickStates(PutAway(c));
  }

  /** Equal, or both able to run. */
  predicate SameBut(a: State, b: State) {
    a == b || (a in {Ready, Running} && b in {Ready, Running})
  }

  lemma TickStates(c: Cpu)
    requires Scheduler.Inv(c)
    ensures var d := Tick(c);
            && |d.tasks| == |c.tasks| && d.idle == c.idle
            && forall t :: 0 <= t < |c.tasks| && t != c.idle ==> SameBut(c.tasks[t].state, d.tasks[t].state)
  {
    if c.tasks[c.cur].slice == 0 { ScheduleStates(c); }
  }

  lemma BlockStates(c: Cpu)
    requires Scheduler.Inv(c) && c.cur != c.idle
    ensures var d := Block(c);
            && |d.tasks| == |c.tasks| && d.idle == c.idle && d.tasks[c.cur].state == Blocked
            && forall t :: 0 <= t < |c.tasks| && t != c.idle && t != c.cur ==> SameBut(c.tasks[t].state, d.tasks[t].state)
  {
    hide Pick;
    BlockInv(c);
    var d := SetState(c, c.cur, Blocked);
    assert Between(d) && PutAway(d) == d;
    PickStates(d);
  }

  /** A change of the CPU that leaves the blocked tasks alone keeps everything. */
  lemma CpuStepInv(s: Sys, c: Cpu)
    requires Inv(s) && Scheduler.Inv(c) && |c.tasks| == |s.cpu.tasks| && c.idle == s.cpu.idle
    requires forall t :: 0 <= t < |c.tasks| && t != c.idle && s.place[t].InWait? ==> SameBut(s.cpu.tasks[t].state, c.tasks[t].state)
    ensures Inv(s.(cpu := c))
  {
    hide Fifo, Distinct, Budget, IdleOk, OnlyRunning;
    var r := s.(cpu := c);
    forall k | 0 <= k < |r.sems| ensures SemOk(r, k) { assert SemOk(s, k); }
    forall t | 0 <= t < |r.place| ensures PlaceOk(r, t) { assert PlaceOk(s, t); }
  }

  lemma InvTable(c: Cpu)
    requires Scheduler.Inv(c)
    ensures InTable(c) && c.tasks[c.cur].state == Running
  {
  }

  lemma FifoOffer(m: Sem, l: Log, t: nat)
    requires Fifo(m, l)
    ensures Fifo(m.(val := m.val - 1, waiting := [t] + m.waiting), l.(waits := l.waits + 1, asked := l.asked + [t]))
  {
  }

  lemma WaitBlocks(s: Sys, k: nat)
    requires Inv(s) && k < |s.sems| && s.cpu.cur != s.cpu.idle && s.place[s.cpu.cur] == Free && s.sems[k].val <= 0
    ensures Inv(Wait(s, k))
  {
    hide Scheduler.Inv, Block, Fifo;
    assert SemOk(s, k);
    FifoOffer(s.sems[k], s.logs[k], s.cpu.cur);
    var r, t := Wait(s, k), s.cpu.cur;
    BlockInv(s.cpu);
    BlockStates(s.cpu);
    InvTable(r.cpu);
    assert SemOk(s, k) && PlaceOk(s, t);
    assert t !in s.sems[k].waiting;
    forall j | 0 <= j < |r.sems| ensures SemOk(r, j) { assert SemOk(s, j); }
    forall u | 0 <= u < |r.place| ensures PlaceOk(r, u) {
      assert PlaceOk(s, u);
      assert u != s.cpu.idle && u != t ==> SameBut(s.cpu.tasks[u].state, r.cpu.tasks[u].state);
    }
  }

  lemma WaitInv(s: Sys, k: nat)
    requires Inv(s) && k < |s.sems| && s.cpu.cur != s.cpu.idle && s.place[s.cpu.cur] == Free
    ensures Inv(Wait(s, k))
  {
    if s.sems[k].val <= 0 {
      WaitBlocks(s, k);
    } else {
      var r := Wait(s, k);
      forall j | 0 <= j < |r.sems| ensures SemOk(r, j) { assert SemOk(s, j); }
      forall u | 0 <= u < |r.place| ensures PlaceOk(r, u) { assert PlaceOk(s, u); }
    }
  }

  /** What sem_signal, task_wakeup and rq_enqueue assert about the task to wake. */
  predicate CanWake(s: Sys, k: nat)
    requires Shape(s) && k < |s.sems|
  {
    && s.sems[k].waiting != []
    && var t := Tail(s.sems[k].waiting);
       t < |s.cpu.tasks| && t != s.cpu.idle && s.cpu.tasks[t].state == Blocked && t !in s.cpu.queue
  }

  lemma SignalInv(s: Sys, k: nat)
    requires Inv(s) && k < |s.sems|
    ensures s.sems[k].val + 1 <= 0 ==> CanWake(s, k)
    ensures Inv(Signal(s, k))
  {
    assert SemOk(s, k);
    if s.sems[k].val + 1 <= 0 {
      WakesTail(s, k);
    } else {
      var r := Signal(s, k);
      forall j | 0 <= j < |r.sems| ensures SemOk(r, j) { assert SemOk(s, j); }
      forall u | 0 <= u < |r.place| ensures PlaceOk(r, u) { assert PlaceOk(s, u); }
    }
  }

  lemma WakesTail(s: Sys, k: nat)
    requires Inv(s) && k < |s.sems| && s.sems[k].val + 1 <= 0
    ensures CanWake(s, k) && Inv(Signal(s, k))
  {
    hide Scheduler.Inv, Fifo;
    assert SemOk(s, k);
    FifoPoll(s.sems[k], s.logs[k]);
    var w := s.sems[k].waiting;
    var t := Tail(w);
    assert t == w[|w| - 1] && PlaceOk(s, t);
    BlockedNotQueued(s.cpu, t);
    WakeupInv(s.cpu, t);
    var r := Signal(s, k);
    InvTable(r.cpu);
    forall j | 0 <= j < |r.sems| ensures SemOk(r, j) { assert SemOk(s, j); }
    forall u | 0 <= u < |r.place| ensures PlaceOk(r, u) {
      assert PlaceOk(s, u);
      assert u in w && u != t ==> u in w[..|w| - 1];
    }
  }

  lemma FifoPoll(m: Sem, l: Log)
    requires Fifo(m, l) && m.waiting != []
    ensures forall m': Sem, l': Log ::
              m'.waiting == m.waiting[..|m.waiting| - 1] && l'.asked == l.asked && l'.woken == l.woken + [Tail(m.waiting)] ==>
                Fifo(m', l')
  {
  }

  lemma BlockedNotQueued(c: Cpu, t: nat)
    requires Scheduler.Inv(c) && t < |c.tasks| && c.tasks[t].state == Blocked
    ensures t !in c.queue
  {
  }

  lemma ReturnInv(s: Sys)
    requires Inv(s) && s.place[s.cpu.cur].InWait?
    ensures s.place[s.cpu.cur].sem < |s.sems| && Inv(Return(s))
  {
    assert PlaceOk(s, s.cpu.cur);
    var r := Return(s);
    forall j | 0 <= j < |r.sems| ensures SemOk(r, j) { assert SemOk(s, j); }
    forall u | 0 <= u < |r.place| ensures PlaceOk(r, u) { assert PlaceOk(s, u); }
  }

  // ------------------------------------------------------------------
  // sem_signalall
  // ------------------------------------------------------------------

  /** Signal until one signal wakes nobody. */
  function SignalAll(s: Sys, k: nat): Sys
    requires Inv(s) && k < |s.sems|
    decreases if s.sems[k].val < 0 then -s.sems[k].val else 0
  {
    SignalInv(s, k);
    var r := Signal(s, k);
    if s.sems[k].val + 1 <= 0 then SignalAll(r, k) else r
  }

  function Held(s: Sys, k: nat, h: Option<nat>): Sys
    requires k < |s.sems|
  {
    s.(sems := s.sems[k := s.sems[k].(holder := h)])
  }

  /** Who is recorded as holder makes no difference to a signal. */
  lemma HolderIgnored(s: Sys, k: nat, h: Option<nat>)
    requires Inv(s) && k < |s.sems|
    ensures Inv(Held(s, k, h)) && SignalAll(Held(s, k, h), k) == SignalAll(s, k)
  {
    var r := Held(s, k, h);
    forall j | 0 <= j < |r.sems| ensures SemOk(r, j) { assert SemOk(s, j); }
    forall u | 0 <= u < |r.place| ensures PlaceOk(r, u) { assert PlaceOk(s, u); }
    SignalInv(s, k);
    assert Signal(r, k) == Signal(s, k);
  }

  /** It wakes every waiter, longest wait first, and leaves one credit more than
      there was. */
  lemma {:induction false} SignalAllWakes(s: Sys, k: nat)
    requires Inv(s) && k < |s.sems|
    ensures var r := SignalAll(s, k);
            && Inv(r) && |r.sems| == |s.sems| && r.sems[k].waiting == []
            && r.sems[k].val == (if s.sems[k].val < 0 then 0 else s.sems[k].val) + 1
            && r.logs[k].woken == s.logs[k].asked == r.logs[k].asked
            && (forall t :: t in s.sems[k].waiting ==> t < |r.cpu.tasks| && r.cpu.tasks[t].state == Ready)
            && (forall t :: 0 <= t < |s.cpu.tasks| && s.cpu.tasks[t].state == Ready ==> t < |r.cpu.tasks| && r.cpu.tasks[t].state == Ready)
    decreases if s.sems[k].val < 0 then -s.sems[k].val else 0
  {
    hide Scheduler.Inv, Signal, Fifo, PlaceOk;
    SignalInv(s, k);
    SignalFacts(s, k);
    if s.sems[k].val + 1 <= 0 {
      SignalAllWakes(Signal(s, k), k);
    }
  }

  lemma SignalFacts(s: Sys, k: nat)
    requires Inv(s) && k < |s.sems|
    requires s.sems[k].val + 1 <= 0 ==> CanWake(s, k)
    ensures var r := Signal(s, k);
            && |r.sems| == |s.sems| == |r.logs| && |r.cpu.tasks| == |s.cpu.tasks|
            && r.sems[k].val == s.sems[k].val + 1 && r.logs[k].asked == s.logs[k].asked
            && (s.sems[k].val + 1 > 0 ==> s.sems[k].waiting == r.sems[k].waiting == [] && r.logs[k].woken == r.logs[k].asked)
            && (forall t :: t in s.sems[k].waiting ==>
                  t < |r.cpu.tasks| && (t in r.sems[k].waiting || r.cpu.tasks[t].state == Ready))
            && (forall t :: 0 <= t < |s.cpu.tasks| && s.cpu.tasks[t].state == Ready ==> r.cpu.tasks[t].state == Ready)
  {
    hide Scheduler.Inv, PlaceOk;
    assert SemOk(s, k);
    var w := s.sems[k].waiting;
    assert forall t :: t in w ==> t == Tail(w) || t in w[..|w| - 1];
  }

  // ------------------------------------------------------------------
  // Runs
  // ------------------------------------------------------------------

  /** Each step is taken by the current task, a timer tick or an interrupt
      handler. */
  datatype Step =
    | Interrupt | Yield | DoWait(sem: nat) | DoReturn | DoSignal(sem: nat) | DoSignalAll(sem: nat)
    | Create(task: nat, priority: nat) | Start(task: nat)

  predicate Enabled(s: Sys, a: Step)
    requires Shape(s)
  {
    var free := s.place[s.cpu.cur] == Free;
    match a
    case Interrupt => true
    case Yield => free
    case DoWait(k) => free && k < |s.sems| && s.cpu.cur != s.cpu.idle
    case DoReturn => !free
    case DoSignal(k) => k < |s.sems|
    case DoSignalAll(k) => k < |s.sems|
    case Create(t, p) => t < |s.cpu.tasks| && s.cpu.tasks[t].state == Unused && p >= 1
    case Start(t) => t < |s.cpu.tasks| && s.cpu.tasks[t].state == Allocated
  }

  function Next(s: Sys, a: Step): Sys
    requires Inv(s) && Enabled(s, a)
  {
    match a
    case Interrupt => s.(cpu := Tick(s.cpu))
    case Yield => s.(cpu := Schedule(s.cpu))
    case DoWait(k) => Wait(s, k)
    case DoReturn => ReturnInv(s); Return(s)
    case DoSignal(k) => SignalInv(s, k); Signal(s, k)
    case DoSignalAll(k) => SignalAll(s, k)
    case Create(t, p) => s.(cpu := s.cpu.(tasks := s.cpu.tasks[t := Task(Allocated, p, p)]))
    case Start(t) => s.(cpu := Wakeup(s.cpu, t))
  }

  lemma CreateInv(s: Sys, t: nat, p: nat)
    requires Inv(s) && Enabled(s, Create(t, p))
    ensures Inv(Next(s, Create(t, p)))
  {
    var c := Next(s, Create(t, p)).cpu;
    assert PlaceOk(s, t);
    CpuStepInv(s, c);
  }

  lemma StartInv(s: Sys, t: nat)
    requires Inv(s) && Enabled(s, Start(t))
    ensures Inv(Next(s, Start(t)))
  {
    assert PlaceOk(s, t);
    WakeupInv(s.cpu, t);
    CpuStepInv(s, Wakeup(s.cpu, t));
  }

  lemma NextInv(s: Sys, a: Step)
    requires Inv(s) && Enabled(s, a)
    ensures Inv(Next(s, a))
  {
    hide Scheduler.Inv, SemOk, PlaceOk, Wait, Signal, Return, SignalAll, Tick, Schedule, Wakeup;
    match a
    case Interrupt => TickInv(s.cpu); TickStates(s.cpu); CpuStepInv(s, Tick(s.cpu));
    case Yield => ScheduleInv(s.cpu); ScheduleStates(s.cpu); CpuStepInv(s, Schedule(s.cpu));
    case DoWait(k) => WaitInv(s, k);
    case DoReturn => ReturnInv(s);
    case DoSignal(k) => SignalInv(s, k);
    case DoSignalAll(k) => SignalAllWakes(s, k);
    case Create(t, p) => CreateInv(s, t, p);
    case Start(t) => StartInv(s, t);
  }

  predicate Legal(s: Sys, run: seq<Step>)
    requires Inv(s)
    decreases |run|
  {
    run == [] || (Enabled(s, run[0]) && (NextInv(s, run[0]); Legal(Next(s, run[0]), run[1..])))
  }

  function After(s: Sys, run: seq<Step>): (r: Sys)
    requires Inv(s) && Legal(s, run)
    ensures Inv(r)
    decreases |run|
  {
    if run == [] then s else NextInv(s, run[0]); After(Next(s, run[0]), run[1..])
  }

  /** Before the first step: semaphores as sem_init leaves them. */
  predicate Booted(s: Sys) {
    && Shape(s) && Scheduler.Inv(s.cpu)
    && (forall k :: 0 <= k < |s.sems| ==>
          s.sems[k] == Sem(s.logs[k].init, [], None) && s.logs[k] == Log(s.logs[k].init, 0, 0, [], [], multiset{}))
    && (forall t :: 0 <= t < |s.place| ==> s.place[t] == Free)
  }

  function Max0(x: int): nat { if x < 0 then 0 else x }

  /** What holds of every semaphore after every run: the length of the queue,
      the grants handed out (waits that got through minus signals), the order of
      wakeups, and that its waiters are blocked and wait for nothing else. */
  predicate Accounted(s: Sys, k: nat)
    requires Shape(s) && k < |s.sems|
  {
    var (m, l) := (s.sems[k], s.logs[k]);
    && |m.waiting| == Max0(-m.val)
    && (l.waits - |m.waiting|) - l.signals == l.init - Max0(m.val)
    && |l.asked| == |l.woken| + |m.waiting| && l.woken <= l.asked
    && (forall i :: 0 <= i < |m.waiting| ==> m.waiting[i] == l.asked[|l.asked| - 1 - i])
    && (forall t :: t in m.waiting ==> t < |s.cpu.tasks| && s.cpu.tasks[t].state == Blocked)
    && (forall j, t :: 0 <= j < |s.sems| && t in m.waiting && t in s.sems[j].waiting ==> j == k)
  }

  lemma InvAccounts(s: Sys, k: nat)
    requires Inv(s) && k < |s.sems|
    ensures Accounted(s, k)
  {
    assert SemOk(s, k);
    var w := s.sems[k].waiting;
    forall t | t in w ensures t < |s.cpu.tasks| && s.cpu.tasks[t].state == Blocked {
      assert s.place[t] == InWait(k) && PlaceOk(s, t);
    }
    forall j, t | 0 <= j < |s.sems| && t in w && t in s.sems[j].waiting ensures j == k {
      assert SemOk(s, j) && s.place[t] == InWait(k) && s.place[t] == InWait(j);
    }
  }

  /** Scheduler and semaphores, over every run of every number of tasks. */
  lemma SystemIsSound(s: Sys, run: seq<Step>)
    requires Booted(s)
    ensures Inv(s)
    ensures Legal(s, run) ==>
              var r := After(s, run);
              && Scheduler.Inv(r.cpu) && (forall k :: 0 <= k < |r.sems| ==> Accounted(r, k))
              && forall t :: 0 <= t < |r.place| ==> PlaceOk(r, t)
  {
    forall k | 0 <= k < |s.sems| ensures SemOk(s, k) { }
    assert Inv(s);
    if Legal(s, run) {
      var r := After(s, run);
      forall k | 0 <= k < |r.sems| ensures Accounted(r, k) { InvAccounts(r, k); }
    }
  }
}
