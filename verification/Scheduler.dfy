/** The default scheduler: kernel/sched/linux0.11/linux0.11.c under
    kernel/sched/sched.c, with the state changes of kernel/task.c. */
module Scheduler {
  import opened Common

  datatype State = Unused | Allocated | Ready | Running | Blocked | Waiting | Zombie

  datatype Task = Task(state: State, slice: nat, priority: nat)

  /** `queue` lists the ready queue from head to tail; a task enters at the head. */
  datatype Cpu = Cpu(tasks: seq<Task>, queue: seq<nat>, cur: nat, idle: nat)

  predicate InTable(c: Cpu) {
    c.cur < |c.tasks| && c.idle < |c.tasks| && forall i :: 0 <= i < |c.queue| ==> c.queue[i] < |c.tasks|
  }

  /** A task is READY iff it is in the ready queue, where it is once; the only
      RUNNING task is the current one; idle is never queued. */
  predicate Queued(c: Cpu) {
    && InTable(c) && Distinct(c.queue)
    && (forall t :: 0 <= t < |c.tasks| ==> (c.tasks[t].state == Ready <==> t in c.queue))
    && c.idle !in c.queue
  }

  predicate OnlyRunning(c: Cpu) {
    InTable(c) && forall t :: 0 <= t < |c.tasks| ==> (c.tasks[t].state == Running <==> t == c.cur)
  }

  /** The slice bound: below twice the priority. */
  predicate Sliced(t: Task) {
    t.state != Unused ==> 1 <= t.priority && t.slice <= 2 * t.priority - 1
  }

  predicate Budget(c: Cpu) {
    forall t :: 0 <= t < |c.tasks| ==> Sliced(c.tasks[t])
  }

  predicate IdleOk(c: Cpu) {
    InTable(c) && c.tasks[c.idle].state == if c.cur == c.idle then Running else Blocked
  }

  predicate Inv(c: Cpu) {
    Queued(c) && OnlyRunning(c) && Budget(c) && IdleOk(c)
  }

  // ------------------------------------------------------------------
  // pick_task
  // ------------------------------------------------------------------

  /** The first task, from the head, of maximal positive slice. */
  predicate Best(tasks: seq<Task>, q: seq<nat>, p: nat)
    requires forall i :: 0 <= i < |q| ==> q[i] < |tasks|
  {
    && p < |q| && tasks[q[p]].slice > 0
    && (forall i :: 0 <= i < p ==> tasks[q[i]].slice < tasks[q[p]].slice)
    && (forall i :: p <= i < |q| ==> tasks[q[i]].slice <= tasks[q[p]].slice)
  }

  /** Where the scan of pick_task stops: at the best task, or at the end when
      every slice is used up. */
  function Scan(tasks: seq<Task>, q: seq<nat>): (p: nat)
    requires forall i :: 0 <= i < |q| ==> q[i] < |tasks|
    ensures p <= |q| && (p < |q| ==> Best(tasks, q, p))
    ensures p == |q| <==> forall i :: 0 <= i < |q| ==> tasks[q[i]].slice == 0
  {
    if q == [] then 0 else
    var last := |q| - 1;
    var p := Scan(tasks, q[..last]);
    if p < last then if tasks[q[last]].slice > tasks[q[p]].slice then last else p
    else if tasks[q[last]].slice > 0 then last else |q|
  }

  lemma BestIsUnique(tasks: seq<Task>, q: seq<nat>, p: nat, p': nat)
    requires forall i :: 0 <= i < |q| ==> q[i] < |tasks|
    requires Best(tasks, q, p) && Best(tasks, q, p')
    ensures p == p'
  {
  }

  function Refill(t: Task): Task {
    if t.state == Unused then t else t.(slice := t.priority + t.slice / 2)
  }

  function Refilled(tasks: seq<Task>, idle: nat): (r: seq<Task>)
    ensures |r| == |tasks|
    ensures forall i :: 0 <= i < |tasks| ==> r[i] == if i == idle then tasks[i] else Refill(tasks[i])
  {
    seq(|tasks|, i requires 0 <= i < |tasks| => if i == idle then tasks[i] else Refill(tasks[i]))
  }

  function Without(q: seq<nat>, p: nat): seq<nat>
    requires p < |q|
  {
    q[..p] + q[p + 1..]
  }

  /** Take the task at position `p` off the queue and run it. */
  function Take(c: Cpu, p: nat): Cpu
    requires InTable(c) && p < |c.queue|
  {
    var t := c.queue[p];
    Cpu(c.tasks[t := c.tasks[t].(state := Running)], Without(c.queue, p), t, c.idle)
  }

  /** pick_task, followed by what schedule does with its answer. */
  function Pick(c: Cpu): (r: Cpu)
    requires InTable(c)
  {
    if c.queue == [] then
      var t := c.tasks[c.idle];
      c.(tasks := c.tasks[c.idle := t.(slice := t.priority, state := Running)], cur := c.idle)
    else
      var p := Scan(c.tasks, c.queue);
      if p < |c.queue| then Take(c, p)
      else
        var d := c.(tasks := Refilled(c.tasks, c.idle));
        var p' := Scan(d.tasks, d.queue);
        if p' < |d.queue| then Take(d, p') else d
  }

  /** The half of schedule that puts the previous task away. */
  function PutAway(c: Cpu): (r: Cpu)
    requires InTable(c)
    ensures InTable(r)
  {
    var t := c.tasks[c.cur];
    if c.cur == c.idle then c.(tasks := c.tasks[c.cur := t.(state := Blocked)])
    else if t.state == Running then
      c.(tasks := c.tasks[c.cur := t.(state := Ready)], queue := [c.cur] + c.queue)
    else c
  }

  function Schedule(c: Cpu): Cpu
    requires InTable(c)
  {
    Pick(PutAway(c))
  }

  /** The timer interrupt. */
  function Tick(c: Cpu): Cpu
    requires InTable(c)
  {
    var t := c.tasks[c.cur];
    if t.slice != 0 then c.(tasks := c.tasks[c.cur := t.(slice := t.slice - 1)]) else Schedule(c)
  }

  function SetState(c: Cpu, t: nat, s: State): (r: Cpu)
    requires InTable(c) && t < |c.tasks|
    ensures InTable(r)
  {
    c.(tasks := c.tasks[t := c.tasks[t].(state := s)])
  }

  /** task_block */
  function Block(c: Cpu): Cpu
    requires InTable(c)
  {
    Schedule(SetState(c, c.cur, Blocked))
  }

  /** task_wakeup */
  function Wakeup(c: Cpu, t: nat): Cpu
    requires InTable(c) && t < |c.tasks|
  {
    SetState(c, t, Ready).(queue := [t] + c.queue)
  }

  // ------------------------------------------------------------------
  // The invariant
  // ------------------------------------------------------------------

  /** Nobody runs; the state between the two halves of schedule. */
  predicate Between(c: Cpu) {
    && Queued(c) && Budget(c) && c.tasks[c.idle].state == Blocked
    && forall t :: 0 <= t < |c.tasks| ==> c.tasks[t].state != Running
  }

  lemma WithoutKeeps(q: seq<nat>, p: nat)
    requires Distinct(q) && p < |q|
    ensures Distinct(Without(q, p)) && forall t :: t in Without(q, p) <==> t in q && t != q[p]
  {
    var r := Without(q, p);
    assert forall i :: 0 <= i < |r| ==> r[i] == q[if i < p then i else i + 1];
    forall t | t in q && t != q[p] ensures t in r {
      var i :| 0 <= i < |q| && q[i] == t;
      assert r[if i < p then i else i - 1] == t;
    }
  }

  lemma TakeInv(c: Cpu, p: nat)
    requires Between(c) && p < |c.queue|
    ensures Inv(Take(c, p))
  {
    WithoutKeeps(c.queue, p);
    assert c.tasks[c.queue[p]].state == Ready;
  }

  lemma RefillKeeps(c: Cpu)
    requires Between(c)
    ensures Between(c.(tasks := Refilled(c.tasks, c.idle)))
    ensures c.queue != [] ==> Scan(Refilled(c.tasks, c.idle), c.queue) < |c.queue|
  {
    var r := Refilled(c.tasks, c.idle);
    assert forall t :: 0 <= t < |r| ==> r[t].state == c.tasks[t].state;
    assert forall t :: 0 <= t < |r| ==> Sliced(c.tasks[t]) && Sliced(r[t]);
    if c.queue != [] {
      var t := c.queue[0];
      assert c.tasks[t].state == Ready && r[t].slice > 0;
    }
  }

  /** One refill is always enough, and the task picked has the largest slice. */
  lemma PickInv(c: Cpu)
    requires Between(c)
    ensures Inv(Pick(c))
    ensures c.queue != [] ==>
              && Pick(c).cur in c.queue
              && forall t :: t in c.queue ==> Pick(c).tasks[t].slice <= Pick(c).tasks[Pick(c).cur].slice
  {
    var p := Scan(c.tasks, c.queue);
    if c.queue != [] {
      if p < |c.queue| {
        TakeInv(c, p);
      } else {
        RefillKeeps(c);
        var d := c.(tasks := Refilled(c.tasks, c.idle));
        TakeInv(d, Scan(d.tasks, d.queue));
      }
    }
  }

  /** The first scan decides, unless every slice in the queue is used up. */
  lemma PickIs(c: Cpu)
    requires Between(c) && c.queue != []
    ensures var p, p' := Scan(c.tasks, c.queue), Scan(Refilled(c.tasks, c.idle), c.queue);
            p' < |c.queue| && Pick(c) == if p < |c.queue| then Take(c, p) else Take(c.(tasks := Refilled(c.tasks, c.idle)), p')
  {
    hide Scan, Refilled, Best;
    RefillKeeps(c);
  }

  lemma PutAwayInv(c: Cpu)
    requires Inv(c)
    ensures Between(PutAway(c))
  {
    assert c.cur !in c.queue;
  }

  lemma ScheduleInv(c: Cpu)
    requires Inv(c)
    ensures Inv(Schedule(c))
  {
    PutAwayInv(c);
    PickInv(PutAway(c));
  }

  lemma TickInv(c: Cpu)
    requires Inv(c)
    ensures Inv(Tick(c))
  {
    if c.tasks[c.cur].slice == 0 { ScheduleInv(c); }
  }

  lemma BlockInv(c: Cpu)
    requires Inv(c) && c.cur != c.idle
    ensures Inv(Block(c)) && Block(c).tasks[c.cur].state == Blocked
    ensures forall t :: 0 <= t < |c.tasks| && c.tasks[t].state == Blocked && t != c.idle ==> Block(c).tasks[t].state == Blocked
  {
    hide Pick;
    var d := SetState(c, c.cur, Blocked);
    assert Between(d) && PutAway(d) == d;
    PickInv(d);
    PickKeepsBlocked(d);
  }

  /** Picking runs a task that was ready, or the idle task. */
  lemma PickKeepsBlocked(c: Cpu)
    requires Between(c)
    ensures |Pick(c).tasks| == |c.tasks|
    ensures forall t :: 0 <= t < |c.tasks| && c.tasks[t].state == Blocked && t != c.idle ==> Pick(c).tasks[t].state == Blocked
  {
    hide Scan, Without;
  }

  lemma WakeupInv(c: Cpu, t: nat)
    requires Inv(c) && t < |c.tasks| && t != c.idle && c.tasks[t].state !in {Ready, Running, Unused}
    ensures Inv(Wakeup(c, t))
  {
    assert t !in c.queue;
  }

  // ------------------------------------------------------------------
  // No starvation
  // ------------------------------------------------------------------

  function Cost(t: Task): nat {
    if t.slice > 0 then t.slice + 1 else 0
  }

  /** Ticks until every queued slice is used up, one tick more for each switch. */
  function Load(tasks: seq<Task>, q: seq<nat>): nat
    requires forall i :: 0 <= i < |q| ==> q[i] < |tasks|
  {
    if q == [] then 0 else Cost(tasks[q[0]]) + Load(tasks, q[1..])
  }

  function Weight(tasks: seq<Task>, q: seq<nat>): nat
    requires forall i :: 0 <= i < |q| ==> q[i] < |tasks|
  {
    if q == [] then 0 else tasks[q[0]].priority + 1 + Weight(tasks, q[1..])
  }

  /** Ticks before the next refill. */
  function ToRefill(c: Cpu): nat
    requires InTable(c)
  {
    c.tasks[c.cur].slice + Load(c.tasks, c.queue)
  }

  /** Ticks in one round after a refill. */
  function Round(c: Cpu): nat
    requires InTable(c)
  {
    Weight(c.tasks, c.queue) + if c.cur == c.idle then 0 else c.tasks[c.cur].priority + 1
  }

  lemma {:induction false} SumsWithout(tasks: seq<Task>, q: seq<nat>, p: nat)
    requires (forall i :: 0 <= i < |q| ==> q[i] < |tasks|) && p < |q|
    ensures Load(tasks, Without(q, p)) == Load(tasks, q) - Cost(tasks[q[p]])
    ensures Weight(tasks, Without(q, p)) == Weight(tasks, q) - tasks[q[p]].priority - 1
  {
    if p == 0 {
      assert Without(q, 0) == q[1..];
    } else {
      SumsWithout(tasks, q[1..], p - 1);
      assert Without(q, p)[1..] == Without(q[1..], p - 1);
    }
  }

  /** The sums depend on slices and priorities only. */
  lemma {:induction false} SumsSame(tasks: seq<Task>, tasks': seq<Task>, q: seq<nat>)
    requires |tasks| == |tasks'| && forall i :: 0 <= i < |q| ==> q[i] < |tasks|
    requires forall i :: 0 <= i < |q| ==> tasks[q[i]].slice == tasks'[q[i]].slice && tasks[q[i]].priority == tasks'[q[i]].priority
    ensures Load(tasks, q) == Load(tasks', q) && Weight(tasks, q) == Weight(tasks', q)
  {
    if q != [] { SumsSame(tasks, tasks', q[1..]); }
  }

  lemma {:induction false} LoadZero(tasks: seq<Task>, q: seq<nat>)
    requires forall i :: 0 <= i < |q| ==> q[i] < |tasks|
    ensures Load(tasks, q) == 0 <==> forall i :: 0 <= i < |q| ==> tasks[q[i]].slice == 0
  {
    if q != [] { LoadZero(tasks, q[1..]); }
  }

  /** After a refill every spent task has exactly its priority. */
  lemma {:induction false} RefilledSums(tasks: seq<Task>, idle: nat, q: seq<nat>)
    requires forall i :: 0 <= i < |q| ==> q[i] < |tasks| && q[i] != idle
    requires forall i :: 0 <= i < |q| ==> tasks[q[i]].state != Unused && tasks[q[i]].slice == 0 && tasks[q[i]].priority >= 1
    ensures Load(Refilled(tasks, idle), q) == Weight(tasks, q) == Weight(Refilled(tasks, idle), q)
  {
    if q != [] { RefilledSums(tasks, idle, q[1..]); }
  }

  lemma TakeSums(c: Cpu, p: nat)
    requires Between(c) && p < |c.queue| && c.tasks[c.queue[p]].slice > 0
    ensures InTable(Take(c, p))
    ensures ToRefill(Take(c, p)) == Load(c.tasks, c.queue) - 1
    ensures Round(Take(c, p)) == Weight(c.tasks, c.queue)
  {
    TakeInv(c, p);
    var d := Take(c, p);
    SumsWithout(c.tasks, c.queue, p);
    SumsSame(c.tasks, d.tasks, d.queue);
  }

  /** A task other than the one picked stays in the queue with its slice. */
  lemma StillQueued(c: Cpu, p: nat, t: nat)
    requires Between(c) && p < |c.queue| && t in c.queue
    ensures InTable(Take(c, p)) && (Take(c, p).cur == t || t in Take(c, p).queue)
    ensures Take(c, p).tasks[t].slice == c.tasks[t].slice
  {
    TakeInv(c, p);
    WithoutKeeps(c.queue, p);
  }

  lemma PutAwaySums(c: Cpu)
    requires Inv(c) && c.tasks[c.cur].slice == 0
    ensures var d := PutAway(c);
            Load(d.tasks, d.queue) == ToRefill(c) && Weight(d.tasks, d.queue) == Round(c)
  {
    var d := PutAway(c);
    SumsSame(c.tasks, d.tasks, c.queue);
    if c.cur != c.idle { assert d.queue[1..] == c.queue; }
  }

  /** A tick before the refill brings the refill one tick nearer. */
  lemma TickBeforeRefill(c: Cpu, t: nat)
    requires Inv(c) && t in c.queue && ToRefill(c) > 0
    ensures var d := Tick(c);
            && Inv(d) && ToRefill(d) == ToRefill(c) - 1 && Round(d) == Round(c)
            && (d.cur == t || (t in d.queue && d.tasks[t].slice == c.tasks[t].slice))
  {
    TickInv(c);
    if c.tasks[c.cur].slice > 0 {
      assert c.tasks[c.cur].state == Running;
      SumsSame(c.tasks, Tick(c).tasks, c.queue);
    } else {
      var d := PutAway(c);
      PutAwayInv(c);
      PutAwaySums(c);
      LoadZero(d.tasks, d.queue);
      var p := Scan(d.tasks, d.queue);
      TakeSums(d, p);
      assert t in d.queue && d.tasks[t].slice == c.tasks[t].slice;
      StillQueued(d, p, t);
    }
  }

  /** The refill itself gives every queued task its priority. */
  lemma TickRefills(c: Cpu, t: nat)
    requires Inv(c) && t in c.queue && ToRefill(c) == 0
    ensures var d := Tick(c);
            && Inv(d) && ToRefill(d) == Round(c) - 1
            && (d.cur == t || (t in d.queue && d.tasks[t].slice > 0))
  {
    hide Load, Weight;
    TickInv(c);
    var d := PutAway(c);
    PutAwayInv(c);
    PutAwaySums(c);
    assert t in d.queue;
    PickRefills(d, t);
  }

  lemma PickRefills(d: Cpu, t: nat)
    requires Between(d) && t in d.queue && Load(d.tasks, d.queue) == 0
    ensures var e := Pick(d);
            && InTable(e) && ToRefill(e) == Weight(d.tasks, d.queue) - 1
            && (e.cur == t || (t in e.queue && e.tasks[t].slice > 0))
  {
    hide Load, Weight;
    LoadZero(d.tasks, d.queue);
    assert Scan(d.tasks, d.queue) == |d.queue|;
    forall i | 0 <= i < |d.queue| ensures d.tasks[d.queue[i]].state == Ready && d.tasks[d.queue[i]].priority >= 1 {
      assert d.queue[i] in d.queue;
      assert Sliced(d.tasks[d.queue[i]]);
    }
    RefillKeeps(d);
    RefilledSums(d.tasks, d.idle, d.queue);
    var e := d.(tasks := Refilled(d.tasks, d.idle));
    var p := Scan(e.tasks, e.queue);
    TakeSums(e, p);
    StillQueued(e, p, t);
    assert e.tasks[t].slice > 0;
  }

  /** The system after `n` timer interrupts. */
  function Ticks(c: Cpu, n: nat): Cpu
    requires Inv(c)
    decreases n
  {
    if n == 0 then c else TickInv(c); Ticks(Tick(c), n - 1)
  }

  lemma Pending(c: Cpu, t: nat)
    requires Inv(c) && t in c.queue
    ensures Round(c) > 0 && (c.tasks[t].slice > 0 ==> ToRefill(c) > 0)
  {
    LoadZero(c.tasks, c.queue);
  }

  lemma {:induction false} PickedThisRound(c: Cpu, t: nat) returns (k: nat)
    requires Inv(c) && t in c.queue && c.tasks[t].slice > 0
    ensures k <= ToRefill(c) && Ticks(c, k).cur == t
    decreases ToRefill(c)
  {
    hide Tick, Load, Weight, ToRefill, Round, Budget, OnlyRunning, IdleOk, Distinct;
    Pending(c, t);
    TickBeforeRefill(c, t);
    if Tick(c).cur == t {
      assert Ticks(Tick(c), 0).cur == t;
      k := 1;
    } else {
      var j := PickedThisRound(Tick(c), t);
      k := j + 1;
    }
  }

  lemma {:induction false} PickedNextRound(c: Cpu, t: nat) returns (k: nat)
    requires Inv(c) && t in c.queue
    ensures k <= ToRefill(c) + Round(c) && Ticks(c, k).cur == t
    decreases ToRefill(c)
  {
    hide Tick, Load, Weight, ToRefill, Round, Budget, OnlyRunning, IdleOk, Distinct;
    Pending(c, t);
    if ToRefill(c) > 0 {
      TickBeforeRefill(c, t);
    } else {
      TickRefills(c, t);
    }
    if Tick(c).cur == t {
      assert Ticks(Tick(c), 0).cur == t;
      k := 1;
    } else if ToRefill(c) > 0 {
      var j := PickedNextRound(Tick(c), t);
      k := j + 1;
    } else {
      var j := PickedThisRound(Tick(c), t);
      k := j + 1;
    }
  }

  /** Sum over the runnable tasks of slice + 1. */
  function Slices(tasks: seq<Task>, q: seq<nat>): nat
    requires forall i :: 0 <= i < |q| ==> q[i] < |tasks|
  {
    if q == [] then 0 else tasks[q[0]].slice + 1 + Slices(tasks, q[1..])
  }

  lemma {:induction false} LoadBelowSlices(tasks: seq<Task>, q: seq<nat>)
    requires forall i :: 0 <= i < |q| ==> q[i] < |tasks|
    ensures Load(tasks, q) <= Slices(tasks, q)
  {
    if q != [] { LoadBelowSlices(tasks, q[1..]); }
  }

  /** No starvation: under timer ticks alone every ready task runs within the sum
      over the runnable tasks of slice + 1 and of priority + 1. */
  lemma NoStarvation(c: Cpu, t: nat)
    requires Inv(c) && t in c.queue
    ensures exists k :: 0 <= k <= Slices(c.tasks, [c.cur] + c.queue) + Weight(c.tasks, [c.cur] + c.queue) && Ticks(c, k).cur == t
  {
    var all := [c.cur] + c.queue;
    assert all[1..] == c.queue;
    LoadBelowSlices(c.tasks, c.queue);
    var k := PickedNextRound(c, t);
    assert Ticks(c, k).cur == t;
  }

  // ------------------------------------------------------------------
  // What a slice is worth
  // ------------------------------------------------------------------

  /** A task that is running keeps the processor for exactly its slice, one tick at a
      time, and the tick after that schedules. */
  lemma {:induction false} RunsItsSlice(c: Cpu, k: nat)
    requires Inv(c) && k <= c.tasks[c.cur].slice
    ensures var d := Ticks(c, k);
            && Inv(d) && d.cur == c.cur && d.queue == c.queue && d.tasks[d.cur].slice == c.tasks[c.cur].slice - k
            && (k == c.tasks[c.cur].slice ==> Tick(d) == Schedule(d))
    decreases k
  {
    hide Schedule;
    if k > 0 {
      TickInv(c);
      assert Tick(c).tasks[c.cur].slice == c.tasks[c.cur].slice - 1;
      hide Tick, Inv;
      RunsItsSlice(Tick(c), k - 1);
    }
  }

  /** A task that sleeps through `k` refills. */
  function Rested(t: Task, k: nat): Task {
    if k == 0 then t else Refill(Rested(t, k - 1))
  }

  function Power(k: nat): nat { if k == 0 then 1 else 2 * Power(k - 1) }

  /** It falls short of twice its priority by what it fell short before, halved each time
      and rounded up: it gains on one that uses its slice up, and never reaches that. */
  lemma {:induction false} SleeperGains(t: Task, k: nat)
    requires t.state != Unused && Sliced(t)
    ensures var r := Rested(t, k);
            && r.state == t.state && r.priority == t.priority && Sliced(r)
            && var short := 2 * t.priority - r.slice;
               Power(k) * short - Power(k) < 2 * t.priority - t.slice <= Power(k) * short
  {
    if k > 0 {
      SleeperGains(t, k - 1);
      var q := Rested(t, k - 1);
      var m, n, z := 2 * t.priority - q.slice, 2 * t.priority - Rested(t, k).slice, Power(k - 1);
      assert n == (m + 1) / 2;
      assert 2 * n == m || 2 * n == m + 1;
      assert Power(k) * n == z * (2 * n) by { Shuffle(z, n); }
      Doubled(z, m, n);
    }
  }

  lemma Shuffle(z: nat, n: nat)
    ensures 2 * z * n == z * (2 * n)
  {
  }

  lemma Doubled(z: nat, m: nat, n: nat)
    requires 2 * n == m || 2 * n == m + 1
    ensures z * (2 * n) == z * m || z * (2 * n) == z * m + z
  {
    if 2 * n == m + 1 { assert z * (m + 1) == z * m + z; }
  }

  /** Among equals the task that was woken last runs first. */
  lemma WokenFirst(c: Cpu, t: nat)
    requires Inv(c) && t < |c.tasks| && t != c.idle && c.tasks[t].state !in {Ready, Running, Unused}
    requires c.tasks[t].slice > 0 && forall i :: 0 <= i < |c.queue| ==> c.tasks[c.queue[i]].slice <= c.tasks[t].slice
    ensures Pick(Wakeup(c, t)).cur == t
  {
    hide Scan;
    var d := Wakeup(c, t);
    assert d.queue[0] == t;
    var p := Scan(d.tasks, d.queue);
    assert d.tasks[d.queue[0]].slice > 0;
    assert Best(d.tasks, d.queue, p);
    forall i | 0 <= i < |d.queue| ensures d.tasks[d.queue[i]].slice <= d.tasks[t].slice {
      if i > 0 { assert d.queue[i] == c.queue[i - 1]; }
    }
    BestIsUnique(d.tasks, d.queue, p, 0);
  }

  /** And a task that gives way goes on running if no other has a larger slice. */
  lemma YieldsToLarger(c: Cpu)
    requires Inv(c) && c.cur != c.idle && c.tasks[c.cur].slice > 0
    requires forall i :: 0 <= i < |c.queue| ==> c.tasks[c.queue[i]].slice <= c.tasks[c.cur].slice
    ensures Schedule(c).cur == c.cur
  {
    hide Scan;
    var d := PutAway(c);
    assert d.queue[0] == c.cur;
    var p := Scan(d.tasks, d.queue);
    assert d.tasks[d.queue[0]].slice > 0;
    assert Best(d.tasks, d.queue, p);
    forall i | 0 <= i < |d.queue| ensures d.tasks[d.queue[i]].slice <= d.tasks[c.cur].slice {
      if i > 0 { assert d.queue[i] == c.queue[i - 1]; }
    }
    BestIsUnique(d.tasks, d.queue, p, 0);
  }

  /** With nobody ready, blocking hands the processor to the idle task, for its priority. */
  lemma IdleTakesOver(c: Cpu, k: nat)
    requires Inv(c) && c.cur != c.idle && c.queue == [] && k <= c.tasks[c.idle].priority
    ensures Inv(Block(c)) && Ticks(Block(c), k).cur == c.idle
  {
    BlockInv(c);
    var d := Block(c);
    assert d.cur == c.idle && d.tasks[d.cur].slice == c.tasks[c.idle].priority;
    RunsItsSlice(d, k);
  }
}
