/** Semaphores used as locks, as every buffer's `sem` is: first value 1, and
    signalled only by a task that was let through.  `sem_holding` is then exact. */
module Mutex {
  import opened Common
  import opened Scheduler
  import opened Semaphores

  /** One grant at most; whoever has it either has not yet returned from sem_wait
      or is recorded as the holder. */
  predicate Locked(s: Sys, k: nat)
    requires Shape(s) && k < |s.sems|
  {
    var (m, l) := (s.sems[k], s.logs[k]);
    && l.init == 1 && |l.granted| == 1 - Max0(m.val)
    && (forall t :: t in l.granted ==> t < |s.place| && (s.place[t] == InWait(k) || m.holder == Some(t)))
    && (forall t :: 0 <= t < |s.place| && s.place[t] == InWait(k) && t !in m.waiting ==> t in l.granted)
  }

  /** The lock discipline. */
  predicate Fair(s: Sys, k: nat, a: Step)
    requires Shape(s) && k < |s.sems|
  {
    && (a == DoSignal(k) ==> s.cpu.cur in s.logs[k].granted && s.place[s.cpu.cur] == Free)
    && a != DoSignalAll(k)
  }

  lemma OneGrant(m: multiset<nat>, t: nat, u: nat)
    requires t in m && u in m && |m| <= 1
    ensures t == u
  {
    var rest := m - multiset{t};
    assert m == rest + multiset{t};
  }

  lemma WaitLocked(s: Sys, k: nat, j: nat)
    requires Semaphores.Inv(s) && k < |s.sems| && Locked(s, k) && Enabled(s, DoWait(j))
    ensures |Wait(s, j).sems| == |s.sems| && Semaphores.Inv(Wait(s, j)) && Locked(Wait(s, j), k)
  {
    hide Block, Scheduler.Inv;
    WaitInv(s, j);
    assert SemOk(s, k);
  }

  lemma ReturnLocked(s: Sys, k: nat)
    requires Semaphores.Inv(s) && k < |s.sems| && Locked(s, k) && Enabled(s, DoReturn)
    ensures var r := Next(s, DoReturn); |r.sems| == |s.sems| && Semaphores.Inv(r) && Locked(r, k)
  {
    ReturnInv(s);
    var t, g := s.cpu.cur, s.logs[k].granted;
    assert PlaceOk(s, t);
    if s.place[t] == InWait(k) {
      assert t in g;
      forall u | u in g ensures u == t { OneGrant(g, t, u); }
    }
  }

  lemma SignalLocked(s: Sys, k: nat, j: nat)
    requires Semaphores.Inv(s) && k < |s.sems| && Locked(s, k) && j < |s.sems| && Fair(s, k, DoSignal(j))
    requires s.sems[j].val + 1 <= 0 ==> CanWake(s, j)
    ensures |Signal(s, j).sems| == |s.sems| && Semaphores.Inv(Signal(s, j)) && Locked(Signal(s, j), k)
  {
    hide Scheduler.Inv;
    SignalInv(s, j);
    assert SemOk(s, k);
    if j == k {
      var t, g := s.cpu.cur, s.logs[k].granted;
      forall u | u in g ensures u == t { OneGrant(g, t, u); }
      assert g == multiset{t};
      var w := s.sems[k].waiting;
      if s.sems[k].val + 1 <= 0 {
        assert Tail(w) == w[|w| - 1];
        assert forall u :: u in w ==> u == Tail(w) || u in w[..|w| - 1];
      }
    }
  }

  lemma {:induction false} SignalAllLocked(s: Sys, k: nat, j: nat)
    requires Semaphores.Inv(s) && k < |s.sems| && Locked(s, k) && j < |s.sems| && j != k
    ensures |SignalAll(s, j).sems| == |s.sems| && Semaphores.Inv(SignalAll(s, j)) && Locked(SignalAll(s, j), k)
    decreases if s.sems[j].val < 0 then -s.sems[j].val else 0
  {
    hide Scheduler.Inv, Locked, SemOk, PlaceOk, Signal;
    SignalInv(s, j);
    SignalLocked(s, k, j);
    SignalFacts(s, j);
    if s.sems[j].val + 1 <= 0 { SignalAllLocked(Signal(s, j), k, j); }
  }

  lemma NextLocked(s: Sys, k: nat, a: Step)
    requires Semaphores.Inv(s) && k < |s.sems| && Locked(s, k) && Enabled(s, a) && Fair(s, k, a)
    ensures |Next(s, a).sems| == |s.sems| && Semaphores.Inv(Next(s, a)) && Locked(Next(s, a), k)
  {
    hide Scheduler.Inv, SemOk, PlaceOk, Wait, Signal, Return, SignalAll, Tick, Schedule, Wakeup;
    NextInv(s, a);
    match a
    case Interrupt =>
    case Yield =>
    case DoWait(j) => WaitLocked(s, k, j);
    case DoReturn => ReturnLocked(s, k);
    case DoSignal(j) => SignalInv(s, j); SignalLocked(s, k, j);
    case DoSignalAll(j) => SignalAllLocked(s, k, j);
    case Create(_, _) =>
    case Start(_) =>
  }

  predicate FairRun(s: Sys, k: nat, run: seq<Step>)
    requires Semaphores.Inv(s) && Legal(s, run)
    decreases |run|
  {
    run == [] || (k < |s.sems| && Fair(s, k, run[0]) &&
                  (NextInv(s, run[0]); FairRun(Next(s, run[0]), k, run[1..])))
  }

  lemma {:induction false} RunLocked(s: Sys, k: nat, run: seq<Step>)
    requires Semaphores.Inv(s) && k < |s.sems| && Locked(s, k) && Legal(s, run) && FairRun(s, k, run)
    ensures k < |After(s, run).sems| && Locked(After(s, run), k)
    decreases |run|
  {
    hide Scheduler.Inv, Next, Locked, SemOk, PlaceOk;
    if run != [] {
      NextLocked(s, k, run[0]);
      RunLocked(Next(s, run[0]), k, run[1..]);
    }
  }

  /** Mutual exclusion: never two tasks between sem_wait and sem_signal, and the
      one that is there passes ASSERT(sem_holding(&b->sem)). */
  lemma MutualExclusion(s: Sys, k: nat, run: seq<Step>)
    requires Booted(s) && k < |s.sems| && s.logs[k].init == 1
    ensures Semaphores.Inv(s)
    ensures Legal(s, run) && FairRun(s, k, run) ==>
              var r := After(s, run);
              && k < |r.sems|
              && (forall t, u :: t in r.logs[k].granted && u in r.logs[k].granted ==> t == u)
              && (forall t :: t in r.logs[k].granted && t < |r.place| && r.place[t] == Free ==> r.sems[k].holder == Some(t))
  {
    SystemIsSound(s, []);
    if Legal(s, run) && FairRun(s, k, run) {
      RunLocked(s, k, run);
      var r := After(s, run);
      var g := r.logs[k].granted;
      forall t, u | t in g && u in g ensures t == u { OneGrant(g, t, u); }
    }
  }
}
