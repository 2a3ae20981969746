/** The scheduler and the semaphores as code that updates the task table, the
    ready queue and the semaphores in place. */
module SchedulerCode {
  import opened Common
  import opened Scheduler
  import opened Semaphores

  class Kernel {
    var tasks: seq<Task>
    var queue: seq<nat>
    var cur: nat
    const idle: nat
    var sems: seq<Sem>
    ghost var logs: seq<Log>
    ghost var place: seq<Place>

    constructor (tasks: seq<Task>, idle: nat)
      requires Scheduler.Inv(Cpu(tasks, [], idle, idle))
      ensures Cpus() == Cpu(tasks, [], idle, idle) && sems == []
      ensures Booted(Now())
    {
      this.tasks, queue, cur, this.idle := tasks, [], idle, idle;
      sems, logs, place := [], [], seq(|tasks|, _ => Free);
    }

    ghost function Cpus(): Cpu
      reads this
    {
      Cpu(tasks, queue, cur, idle)
    }

    ghost function Now(): Sys
      reads this
    {
      Sys(Cpus(), sems, logs, place)
    }

    /** The search of pick_task: the position of the first task of largest slice. */
    method Search() returns (p: nat)
      requires InTable(Cpus())
      ensures p == Scan(tasks, queue)
    {
      p := |queue|;
      var maxts := 0;
      var i := 0;
      while i < |queue|
        invariant 0 <= i <= |queue| && (p < i || p == |queue|)
        invariant p == |queue| ==> maxts == 0 && forall j :: 0 <= j < i ==> tasks[queue[j]].slice == 0
        invariant p < |queue| ==> maxts == tasks[queue[p]].slice > 0
        invariant p < |queue| ==> forall j :: 0 <= j < p ==> tasks[queue[j]].slice < maxts
        invariant p < |queue| ==> forall j :: p <= j < i ==> tasks[queue[j]].slice <= maxts
      {
        if tasks[queue[i]].slice > maxts {
          maxts, p := tasks[queue[i]].slice, i;
        }
        i := i + 1;
      }
      if p < |queue| { BestIsUnique(tasks, queue, p, Scan(tasks, queue)); }
    }

    /** The refill loop of pick_task over the whole task table. */
    method RefillAll()
      requires InTable(Cpus())
      modifies this`tasks
      ensures tasks == Refilled(old(tasks), idle)
    {
      var t := 0;
      while t < |tasks|
        invariant 0 <= t <= |tasks| == |old(tasks)|
        invariant forall j :: 0 <= j < t ==> tasks[j] == Refilled(old(tasks), idle)[j]
        invariant forall j :: t <= j < |tasks| ==> tasks[j] == old(tasks)[j]
      {
        if tasks[t].state != Unused && t != idle {
          tasks := tasks[t := tasks[t].(slice := tasks[t].priority + tasks[t].slice / 2)];
        }
        t := t + 1;
      }
    }

    /** pick_task: at most one refill. */
    method PickTask() returns (next: nat)
      requires Between(Cpus())
      modifies this`tasks, this`queue
      ensures InTable(Cpus()) && next < |tasks|
      ensures Cpu(tasks[next := tasks[next].(state := Running)], queue, next, idle) == Pick(old(Cpus()))
    {
      hide Scan, Refilled, Best, Budget, Distinct;
      if queue == [] {
        tasks := tasks[idle := tasks[idle].(slice := tasks[idle].priority)];
        return idle;
      }
      PickIs(Cpus());
      var p := SearchTwice();
      next := queue[p];
      queue := queue[..p] + queue[p + 1..];
    }

    /** The loop of pick_task. */
    method SearchTwice() returns (p: nat)
      requires InTable(Cpus()) && Scan(Refilled(tasks, idle), queue) < |queue|
      modifies this`tasks
      ensures InTable(Cpus()) && p < |queue|
      ensures var first := Scan(old(tasks), queue);
              if first < |queue| then p == first && tasks == old(tasks)
              else p == Scan(Refilled(old(tasks), idle), queue) && tasks == Refilled(old(tasks), idle)
    {
      hide Scan, Refilled, Best;
      p := Search();
      ghost var rounds := 1;
      while p == |queue|
        invariant 1 <= rounds <= 2 && InTable(Cpus()) && p == Scan(tasks, queue)
        invariant tasks == if rounds == 1 then old(tasks) else Refilled(old(tasks), idle)
        invariant rounds == 2 ==> Scan(old(tasks), queue) == |queue|
        decreases 2 - rounds
      {
        RefillAll();
        p := Search();
        rounds := rounds + 1;
      }
    }

    /** schedule */
    method DoSchedule()
      requires Scheduler.Inv(Cpus()) || (Between(Cpus()) && cur != idle)
      modifies this`tasks, this`queue, this`cur
      ensures Cpus() == Schedule(old(Cpus())) && Scheduler.Inv(Cpus())
    {
      ghost var c := Cpus();
      if Scheduler.Inv(c) { PutAwayInv(c); }
      PickInv(PutAway(c));
      if cur == idle {
        tasks := tasks[cur := tasks[cur].(state := Blocked)];
      } else if tasks[cur].state == Running {
        tasks := tasks[cur := tasks[cur].(state := Ready)];
        Enqueue(cur);
      }
      assert Cpus() == PutAway(c);
      var next := PickTask();
      tasks := tasks[next := tasks[next].(state := Running)];
      cur := next;
    }

    /** rq_enqueue, with its assertion. */
    method Enqueue(t: nat)
      requires t !in queue && t != idle
      modifies this`queue
      ensures queue == [t] + old(queue)
    {
      queue := [t] + queue;
    }

    /** timeslice_check, from the timer interrupt. */
    method TimesliceCheck()
      requires Scheduler.Inv(Cpus())
      modifies this`tasks, this`queue, this`cur
      ensures Cpus() == Tick(old(Cpus())) && Scheduler.Inv(Cpus())
    {
      TickInv(Cpus());
      if tasks[cur].slice != 0 {
        tasks := tasks[cur := tasks[cur].(slice := tasks[cur].slice - 1)];
      } else {
        DoSchedule();
      }
    }

    /** task_block */
    method TaskBlock()
      requires Scheduler.Inv(Cpus()) && cur != idle
      modifies this`tasks, this`queue, this`cur
      ensures Cpus() == Block(old(Cpus())) && Scheduler.Inv(Cpus())
    {
      tasks := tasks[cur := tasks[cur].(state := Blocked)];
      DoSchedule();
    }

    /** task_wakeup, with its assertion. */
    method TaskWakeup(t: nat)
      requires Scheduler.Inv(Cpus()) && t < |tasks| && t != idle && tasks[t].state !in {Running, Ready, Unused}
      modifies this`tasks, this`queue
      ensures Cpus() == Wakeup(old(Cpus()), t) && Scheduler.Inv(Cpus())
    {
      WakeupInv(Cpus(), t);
      tasks := tasks[t := tasks[t].(state := Ready)];
      Enqueue(t);
    }

    /** sem_wait up to where the task returns or gives up the CPU. */
    method SemWait(k: nat)
      requires Semaphores.Inv(Now()) && Enabled(Now(), DoWait(k))
      modifies this
      ensures Now() == Wait(old(Now()), k) && Semaphores.Inv(Now())
    {
      hide Block, Scheduler.Inv, SemOk, PlaceOk;
      ghost var l := logs[k];
      var t := cur;
      WaitInv(Now(), k);
      InvTable(Cpus());
      sems := sems[k := sems[k].(val := sems[k].val - 1)];
      if sems[k].val < 0 {
        assert tasks[cur].state == Running;
        sems := sems[k := sems[k].(waiting := [t] + sems[k].waiting)];
        logs := logs[k := l.(waits := l.waits + 1, asked := l.asked + [t])];
        place := place[t := InWait(k)];
        TaskBlock();
      } else {
        sems := sems[k := sems[k].(holder := Some(t))];
        logs := logs[k := l.(waits := l.waits + 1, granted := l.granted + multiset{t})];
      }
    }

    /** The end of a sem_wait that blocked, once its task runs again. */
    method SemReturn(k: nat)
      requires Semaphores.Inv(Now()) && place[cur] == InWait(k)
      modifies this`sems, this`place
      ensures k < |old(sems)| && Now() == Return(old(Now())) && Semaphores.Inv(Now())
    {
      ReturnInv(Now());
      sems := sems[k := sems[k].(holder := Some(cur))];
      place := place[cur := Free];
    }

    /** One round of the wakeup in sem_signal and sem_signalall: the assertions
        about the polled task hold. */
    method WakeOne(k: nat)
      requires Scheduler.Inv(Cpus()) && Shape(Now()) && k < |sems| && CanWake(Now(), k)
      modifies this`sems, this`tasks, this`queue
      ensures Scheduler.Inv(Cpus()) && Cpus() == Wakeup(old(Cpus()), Tail(old(sems)[k].waiting))
      ensures var w := old(sems)[k].waiting; sems == old(sems)[k := old(sems)[k].(waiting := w[..|w| - 1])]
    {
      var w := sems[k].waiting;
      assert w != [];
      var t := w[|w| - 1];
      sems := sems[k := sems[k].(waiting := w[..|w| - 1])];
      assert tasks[t].state == Blocked;
      TaskWakeup(t);
    }

    /** The ghost half of a signal. */
    ghost method Record(k: nat, woke: seq<nat>)
      requires k < |logs|
      modifies this`logs
      ensures var l := old(logs)[k];
              logs == old(logs)[k := l.(signals := l.signals + 1, woken := l.woken + woke,
                granted := (l.granted - multiset{cur}) + multiset(woke))]
    {
      var l := logs[k];
      logs := logs[k := l.(signals := l.signals + 1, woken := l.woken + woke,
                           granted := (l.granted - multiset{cur}) + multiset(woke))];
    }

    /** One `++val` with the wakeup it calls for. */
    method Post(k: nat) returns (woke: bool)
      requires Semaphores.Inv(Now()) && k < |sems|
      modifies this`sems, this`tasks, this`queue, this`logs
      ensures woke == (old(sems)[k].val + 1 <= 0) && (woke ==> CanWake(old(Now()), k))
      ensures |sems| == |old(sems)| && Held(Now(), k, None) == Signal(old(Now()), k)
    {
      hide Scheduler.Inv, SemOk, PlaceOk;
      SignalInv(Now(), k);
      sems := sems[k := sems[k].(val := sems[k].val + 1)];
      woke := sems[k].val <= 0;
      if woke {
        Record(k, [Tail(sems[k].waiting)]);
        assert multiset([Tail(old(sems)[k].waiting)]) == multiset{Tail(old(sems)[k].waiting)};
        WakeOne(k);
      } else {
        Record(k, []);
        assert logs[k].woken == old(logs)[k].woken && logs[k].granted == old(logs)[k].granted - multiset{cur};
      }
    }

    /** sem_signal */
    method SemSignal(k: nat)
      requires Semaphores.Inv(Now()) && k < |sems|
      modifies this`sems, this`tasks, this`queue, this`logs
      ensures old(sems)[k].val + 1 <= 0 ==> CanWake(old(Now()), k)
      ensures Now() == Signal(old(Now()), k) && Semaphores.Inv(Now())
    {
      hide Scheduler.Inv, SemOk, PlaceOk, Signal;
      SignalInv(Now(), k);
      var _ := Post(k);
      sems := sems[k := sems[k].(holder := None)];
    }

    /** sem_signalall */
    method SemSignalAll(k: nat)
      requires Semaphores.Inv(Now()) && k < |sems|
      modifies this`sems, this`tasks, this`queue, this`logs
      ensures Now() == SignalAll(old(Now()), k) && Semaphores.Inv(Now())
    {
      hide Scheduler.Inv, SemOk, PlaceOk, Signal;
      SignalAllWakes(Now(), k);
      var more := true;
      while more
        invariant k < |sems| && if more then Semaphores.Inv(Now()) && SignalAll(Now(), k) == SignalAll(old(Now()), k)
                                else Held(Now(), k, None) == SignalAll(old(Now()), k)
        decreases more, if sems[k].val < 0 then -sems[k].val else 0
      {
        ghost var s := Now();
        SignalInv(s, k);
        more := Post(k);
        ghost var r, h := Now(), sems[k].holder;
        SignalFacts(s, k);
        if more {
          HolderIgnored(Signal(s, k), k, h);
          assert Held(Signal(s, k), k, h) == r;
        }
      }
      sems := sems[k := sems[k].(holder := None)];
    }
  }
}
