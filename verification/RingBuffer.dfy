/** The ring buffer of kernel/ringbuffer.c, both ends open, used by any number of
    reading and writing tasks under the scheduler.  A task that has to wait for a
    byte or for room blocks inside sem_wait and finishes when it runs again. */
module RingBuffer {
  import Blocks
  import opened Scheduler
  import opened Semaphores

  type byte = Blocks.byte

  /** `e` and `f` are empty_sem and full_sem.  `putting` remembers the byte of a
      writer that blocked; `wpend` and `rpend` are the writers and readers that
      were woken and have not run yet. */
  datatype Ring = Ring(sys: Sys, e: nat, f: nat, buf: seq<byte>, head: nat, tail: nat,
                       putting: map<nat, byte>, wpend: set<nat>, rpend: set<nat>,
                       accepted: seq<byte>, delivered: seq<byte>)

  predicate Sane(r: Ring) {
    && Semaphores.Inv(r.sys) && r.e < |r.sys.sems| && r.f < |r.sys.sems| && r.e != r.f
    && |r.buf| >= 1 && r.head < |r.buf| && r.tail < |r.buf|
  }

  function InFlight(r: Ring): int {
    |r.accepted| - |r.delivered|
  }

  /** The bytes delivered are the first of those accepted and the others are in
      the buffer, in order. */
  predicate Stored(r: Ring)
    requires |r.buf| >= 1
  {
    && 0 <= InFlight(r) <= |r.buf|
    && r.delivered == r.accepted[..|r.delivered|]
    && r.head == |r.accepted| % |r.buf| && r.tail == |r.delivered| % |r.buf|
    && (forall i :: |r.delivered| <= i < |r.accepted| ==> r.buf[i % |r.buf|] == r.accepted[i])
  }

  /** Woken tasks are those inside sem_wait(k) and no longer in its queue. */
  ghost predicate Pending(s: Sys, k: nat, pend: set<nat>)
    requires Shape(s) && k < |s.sems|
  {
    forall t: nat :: t in pend <==> t < |s.place| && s.place[t] == InWait(k) && t !in s.sems[k].waiting
  }

  /** Every slot is free, promised to a woken writer, in flight, or one of the
      `w` claimed by the current task; every byte in flight is unclaimed, promised
      to a woken reader, or one of the `g` the current task will hand on. */
  predicate Credits(r: Ring, w: nat, g: nat)
    requires Sane(r)
  {
    && |r.buf| - InFlight(r) == Max0(r.sys.sems[r.e].val) + |r.wpend| + w
    && InFlight(r) == Max0(r.sys.sems[r.f].val) + |r.rpend| + g
  }

  ghost predicate Tracked(r: Ring)
    requires Sane(r)
  {
    && Pending(r.sys, r.e, r.wpend) && Pending(r.sys, r.f, r.rpend)
    && (forall t: nat :: t < |r.sys.place| && r.sys.place[t] == InWait(r.e) ==> t in r.putting)
  }

  ghost predicate Inv(r: Ring) {
    Sane(r) && Stored(r) && Tracked(r) && Credits(r, 0, 0)
  }

  // ------------------------------------------------------------------
  // The halves of the two operations
  // ------------------------------------------------------------------

  /** Whom a signal wakes. */
  function Woken(s: Sys, k: nat): set<nat>
    requires Semaphores.Inv(s) && k < |s.sems|
  {
    assert SemOk(s, k);
    if s.sems[k].val + 1 <= 0 then {Tail(s.sems[k].waiting)} else {}
  }

  /** The end of ringbuffer_put_char, from the assignment to buf[head]. */
  function Store(r: Ring, ch: byte): Ring
    requires Sane(r)
  {
    SignalInv(r.sys, r.f);
    r.(sys := Signal(r.sys, r.f), rpend := r.rpend + Woken(r.sys, r.f),
       buf := r.buf[r.head := ch], head := (r.head + 1) % |r.buf|, accepted := r.accepted + [ch])
  }

  /** The end of ringbuffer_read_char, from the read of buf[tail]. */
  function Fetch(r: Ring): Ring
    requires Sane(r)
  {
    SignalInv(r.sys, r.e);
    r.(sys := Signal(r.sys, r.e), wpend := r.wpend + Woken(r.sys, r.e),
       tail := (r.tail + 1) % |r.buf|, delivered := r.delivered + [r.buf[r.tail]])
  }

  function Put(r: Ring, ch: byte): Ring
    requires Sane(r) && Enabled(r.sys, DoWait(r.e))
  {
    WaitInv(r.sys, r.e);
    var q := r.(sys := Wait(r.sys, r.e));
    if r.sys.sems[r.e].val - 1 < 0 then q.(putting := r.putting[r.sys.cpu.cur := ch]) else Store(q, ch)
  }

  ghost function PutMore(r: Ring): Ring
    requires Sane(r) && Tracked(r) && r.sys.place[r.sys.cpu.cur] == InWait(r.e)
  {
    ReturnInv(r.sys);
    var t := r.sys.cpu.cur;
    Store(r.(sys := Return(r.sys), wpend := r.wpend - {t}), r.putting[t])
  }

  function Get(r: Ring): Ring
    requires Sane(r) && Enabled(r.sys, DoWait(r.f))
  {
    WaitInv(r.sys, r.f);
    var q := r.(sys := Wait(r.sys, r.f));
    if r.sys.sems[r.f].val - 1 < 0 then q else Fetch(q)
  }

  function GetMore(r: Ring): Ring
    requires Sane(r) && r.sys.place[r.sys.cpu.cur] == InWait(r.f)
  {
    ReturnInv(r.sys);
    Fetch(r.(sys := Return(r.sys), rpend := r.rpend - {r.sys.cpu.cur}))
  }

  // ------------------------------------------------------------------
  // Each half keeps the accounts
  // ------------------------------------------------------------------

  lemma SlotsDiffer(n: nat, i: nat, j: nat)
    requires n >= 1 && i < j < i + n
    ensures i % n != j % n
  {
    var m := i % n + (j - i);
    assert j == n * (i / n) + m;
    if m < n {
      UniqueMod(n, i / n, m);
    } else {
      assert j == n * (i / n + 1) + (m - n);
      UniqueMod(n, i / n + 1, m - n);
    }
  }

  lemma NextSlot(n: nat, i: nat)
    requires n >= 1
    ensures (i % n + 1) % n == (i + 1) % n
  {
    var m, k := i % n + 1, i / n;
    assert i + 1 == m + n * k;
    if m == n {
      assert i + 1 == n * (k + 1) + 0;
      UniqueMod(n, k + 1, 0);
    } else {
      UniqueMod(n, k, m);
      UniqueMod(n, 0, m);
    }
  }

  lemma UniqueMod(n: nat, q: int, m: nat)
    requires 0 <= m < n
    ensures (n * q + m) % n == m
  {
    var x := n * q + m;
    var d := x / n - q;
    assert n * d == m - x % n by { assert x == n * (x / n) + x % n; assert n * d == n * (x / n) - n * q; }
    assert d > 0 ==> n * d >= n;
    assert d < 0 ==> n * d <= 0 - n;
  }

  lemma StoreStored(r: Ring, ch: byte)
    requires Sane(r) && Stored(r) && InFlight(r) < |r.buf|
    ensures Stored(Store(r, ch))
  {
    hide Semaphores.Inv, Signal, Woken;
    var q, n := Store(r, ch), |r.buf|;
    NextSlot(n, |r.accepted|);
    forall i | |q.delivered| <= i < |q.accepted| ensures q.buf[i % n] == q.accepted[i] {
      if i < |r.accepted| { SlotsDiffer(n, i, |r.accepted|); }
    }
  }

  lemma FetchStored(r: Ring)
    requires Sane(r) && Stored(r) && InFlight(r) > 0
    ensures Stored(Fetch(r))
  {
    hide Semaphores.Inv, Signal, Woken;
    NextSlot(|r.buf|, |r.delivered|);
    assert r.buf[|r.delivered| % |r.buf|] == r.accepted[|r.delivered|];
  }

  /** A signal turns one credit of the current task into a free credit or a
      promise to the task it wakes. */
  lemma SignalPays(s: Sys, k: nat, j: nat, pend: set<nat>, other: set<nat>)
    requires Semaphores.Inv(s) && k < |s.sems| && j < |s.sems| && j != k
    requires Pending(s, k, pend) && Pending(s, j, other)
    requires s.sems[k].val + 1 <= 0 ==> CanWake(s, k)
    ensures var s' := Signal(s, k);
            && Semaphores.Inv(s') && |s'.sems| == |s.sems| && s'.place == s.place
            && s'.sems[j] == s.sems[j]
            && Pending(s', k, pend + Woken(s, k)) && Pending(s', j, other)
            && Max0(s'.sems[k].val) + |pend + Woken(s, k)| == Max0(s.sems[k].val) + |pend| + 1
  {
    hide Scheduler.Inv, Fifo;
    SignalInv(s, k);
    assert SemOk(s, k);
    if s.sems[k].val + 1 <= 0 {
      WokenIsPromised(s, k, pend);
    } else {
      assert pend + {} == pend;
    }
  }

  /** The task that has waited longest leaves the queue and becomes a promise. */
  lemma WokenIsPromised(s: Sys, k: nat, pend: set<nat>)
    requires Semaphores.Shape(s) && k < |s.sems| && SemOk(s, k) && Pending(s, k, pend) && s.sems[k].val + 1 <= 0
    ensures var w := s.sems[k].waiting;
            && w != [] && Tail(w) == w[|w| - 1] && Tail(w) !in pend
            && forall u: nat :: u in pend + {Tail(w)} <==> u < |s.place| && s.place[u] == InWait(k) && u !in w[..|w| - 1]
  {
    hide Fifo;
    var w := s.sems[k].waiting;
    var t := Tail(w);
    assert t == w[|w| - 1] && t in w && t !in pend;
    forall u: nat ensures u in pend + {t} <==> u < |s.place| && s.place[u] == InWait(k) && u !in w[..|w| - 1] {
      assert u in w ==> u == t || u in w[..|w| - 1];
    }
  }

  lemma StoreInv(r: Ring, ch: byte)
    requires Sane(r) && Stored(r) && Tracked(r) && Credits(r, 1, 0)
    ensures Inv(Store(r, ch))
  {
    hide Semaphores.Inv, Signal, Pending, Woken;
    SignalInv(r.sys, r.f);
    SignalPays(r.sys, r.f, r.e, r.rpend, r.wpend);
    StoreStored(r, ch);
  }

  lemma FetchInv(r: Ring)
    requires Sane(r) && Stored(r) && Tracked(r) && Credits(r, 0, 1)
    ensures Inv(Fetch(r))
  {
    hide Semaphores.Inv, Signal, Pending, Woken;
    SignalInv(r.sys, r.e);
    SignalPays(r.sys, r.e, r.f, r.wpend, r.rpend);
    FetchStored(r);
  }

  /** A wait that passes takes a free credit; one that blocks takes none. */
  lemma WaitTakes(s: Sys, k: nat, j: nat, pend: set<nat>, other: set<nat>)
    requires Semaphores.Inv(s) && k < |s.sems| && j < |s.sems| && j != k && Enabled(s, DoWait(k))
    requires Pending(s, k, pend) && Pending(s, j, other)
    ensures var s' := Wait(s, k);
            && Semaphores.Inv(s') && |s'.sems| == |s.sems| && s'.sems[j] == s.sems[j]
            && Pending(s', k, pend) && Pending(s', j, other)
            && (if s.sems[k].val - 1 < 0 then s'.place == s.place[s.cpu.cur := InWait(k)] else s'.place == s.place)
            && Max0(s'.sems[k].val) == Max0(s.sems[k].val) - (if s.sems[k].val - 1 < 0 then 0 else 1)
  {
    hide Scheduler.Inv, Fifo, Block;
    WaitInv(s, k);
    assert SemOk(s, k);
  }

  lemma ReturnTakes(s: Sys, k: nat, j: nat, pend: set<nat>, other: set<nat>)
    requires Semaphores.Inv(s) && k < |s.sems| && j < |s.sems| && j != k && s.place[s.cpu.cur] == InWait(k)
    requires Pending(s, k, pend) && Pending(s, j, other)
    ensures var s' := Return(s);
            && Semaphores.Inv(s') && |s'.sems| == |s.sems| && s'.place == s.place[s.cpu.cur := Free]
            && s'.sems[j] == s.sems[j] && s'.sems[k].val == s.sems[k].val
            && s.cpu.cur in pend && Pending(s', k, pend - {s.cpu.cur}) && Pending(s', j, other)
  {
    ReturnInv(s);
    assert PlaceOk(s, s.cpu.cur);
  }

  lemma WaitSane(r: Ring, k: nat)
    requires Sane(r) && Enabled(r.sys, DoWait(k))
    ensures Sane(r.(sys := Wait(r.sys, k)))
  {
    hide Scheduler.Inv, Scheduler.Block, SemOk, PlaceOk;
    WaitInv(r.sys, k);
  }

  lemma PutInv(r: Ring, ch: byte)
    requires Inv(r) && Enabled(r.sys, DoWait(r.e))
    ensures Inv(Put(r, ch))
  {
    hide Scheduler.Inv, SemOk, PlaceOk, Wait, Store, Pending;
    WaitInv(r.sys, r.e);
    WaitTakes(r.sys, r.e, r.f, r.wpend, r.rpend);
    if r.sys.sems[r.e].val - 1 >= 0 {
      StoreInv(r.(sys := Wait(r.sys, r.e)), ch);
    }
  }

  lemma PutMoreInv(r: Ring)
    requires Inv(r) && r.sys.place[r.sys.cpu.cur] == InWait(r.e)
    ensures Inv(PutMore(r))
  {
    hide Scheduler.Inv, SemOk, PlaceOk, Return, Store, Pending;
    ReturnInv(r.sys);
    ReturnTakes(r.sys, r.e, r.f, r.wpend, r.rpend);
    var t := r.sys.cpu.cur;
    StoreInv(r.(sys := Return(r.sys), wpend := r.wpend - {t}), r.putting[t]);
  }

  lemma GetInv(r: Ring)
    requires Inv(r) && Enabled(r.sys, DoWait(r.f))
    ensures Inv(Get(r))
  {
    hide Scheduler.Inv, SemOk, PlaceOk, Wait, Fetch, Pending;
    WaitInv(r.sys, r.f);
    WaitTakes(r.sys, r.f, r.e, r.rpend, r.wpend);
    if r.sys.sems[r.f].val - 1 >= 0 {
      FetchInv(r.(sys := Wait(r.sys, r.f)));
    }
  }

  lemma GetMoreInv(r: Ring)
    requires Inv(r) && r.sys.place[r.sys.cpu.cur] == InWait(r.f)
    ensures Inv(GetMore(r))
  {
    hide Scheduler.Inv, SemOk, PlaceOk, Return, Fetch, Pending;
    ReturnInv(r.sys);
    ReturnTakes(r.sys, r.f, r.e, r.rpend, r.wpend);
    FetchInv(r.(sys := Return(r.sys), rpend := r.rpend - {r.sys.cpu.cur}));
  }

  // ------------------------------------------------------------------
  // Runs
  // ------------------------------------------------------------------

  /** Calls of the two operations by the current task, the second halves of calls
      that blocked, and everything else the kernel does. */
  datatype Step = DoPut(ch: byte) | DoPutMore | DoGet | DoGetMore | Other(a: Semaphores.Step)

  /** Steps of the rest of the kernel leave the two semaphores alone. */
  ghost predicate Foreign(r: Ring, a: Semaphores.Step)
    requires Sane(r)
  {
    match a
    case DoWait(k) => k != r.e && k != r.f
    case DoSignal(k) => k != r.e && k != r.f
    case DoSignalAll(k) => k != r.e && k != r.f
    case DoReturn => r.sys.place[r.sys.cpu.cur] !in {InWait(r.e), InWait(r.f)}
    case _ => true
  }

  ghost predicate Can(r: Ring, s: Step)
    requires Sane(r)
  {
    match s
    case DoPut(_) => Enabled(r.sys, DoWait(r.e))
    case DoPutMore => r.sys.place[r.sys.cpu.cur] == InWait(r.e)
    case DoGet => Enabled(r.sys, DoWait(r.f))
    case DoGetMore => r.sys.place[r.sys.cpu.cur] == InWait(r.f)
    case Other(a) => Enabled(r.sys, a) && Foreign(r, a)
  }

  ghost function Do(r: Ring, s: Step): Ring
    requires Inv(r) && Can(r, s)
  {
    match s
    case DoPut(ch) => Put(r, ch)
    case DoPutMore => PutMore(r)
    case DoGet => Get(r)
    case DoGetMore => GetMore(r)
    case Other(a) => r.(sys := Next(r.sys, a))
  }

  /** What a foreign step may do to the tasks of semaphore `k`. */
  ghost predicate Untouched(s: Sys, s': Sys, k: nat)
    requires Shape(s) && Shape(s')
  {
    && |s'.sems| == |s.sems| && |s'.place| == |s.place| && k < |s.sems|
    && s'.sems[k].val == s.sems[k].val && s'.sems[k].waiting == s.sems[k].waiting
    && forall t :: 0 <= t < |s.place| ==> (s'.place[t] == InWait(k) <==> s.place[t] == InWait(k))
  }

  lemma {:induction false} SignalAllUntouched(s: Sys, j: nat, k: nat)
    requires Semaphores.Inv(s) && j < |s.sems| && k < |s.sems| && j != k
    ensures Semaphores.Inv(SignalAll(s, j)) && Untouched(s, SignalAll(s, j), k)
    decreases if s.sems[j].val < 0 then -s.sems[j].val else 0
  {
    hide Scheduler.Inv, SemOk, PlaceOk;
    SignalInv(s, j);
    SignalAllWakes(s, j);
    if s.sems[j].val + 1 <= 0 { SignalAllUntouched(Signal(s, j), j, k); }
  }

  lemma OtherUntouched(r: Ring, a: Semaphores.Step, k: nat)
    requires Sane(r) && Enabled(r.sys, a) && Foreign(r, a) && k in {r.e, r.f}
    ensures Semaphores.Inv(Next(r.sys, a)) && Untouched(r.sys, Next(r.sys, a), k)
  {
    hide Scheduler.Inv, SemOk, PlaceOk, SignalAll, Tick, Schedule, Wakeup, Scheduler.Block;
    NextInv(r.sys, a);
    match a
    case Interrupt => TickStates(r.sys.cpu);
    case Yield => ScheduleStates(r.sys.cpu);
    case DoWait(j) =>
    case DoReturn => ReturnInv(r.sys);
    case DoSignal(j) => SignalInv(r.sys, j);
    case DoSignalAll(j) => SignalAllUntouched(r.sys, j, k);
    case Create(_, _) =>
    case Start(_) =>
  }

  lemma OtherInv(r: Ring, a: Semaphores.Step)
    requires Inv(r) && Enabled(r.sys, a) && Foreign(r, a)
    ensures Inv(r.(sys := Next(r.sys, a)))
  {
    hide Semaphores.Inv, Next, Foreign;
    OtherUntouched(r, a, r.e);
    OtherUntouched(r, a, r.f);
  }

  lemma DoInv(r: Ring, s: Step)
    requires Inv(r) && Can(r, s)
    ensures Inv(Do(r, s))
  {
    match s
    case DoPut(ch) => PutInv(r, ch);
    case DoPutMore => PutMoreInv(r);
    case DoGet => GetInv(r);
    case DoGetMore => GetMoreInv(r);
    case Other(a) => OtherInv(r, a);
  }

  ghost predicate Legal(r: Ring, run: seq<Step>)
    requires Inv(r)
    decreases |run|
  {
    run == [] || (Can(r, run[0]) && (DoInv(r, run[0]); Legal(Do(r, run[0]), run[1..])))
  }

  ghost function After(r: Ring, run: seq<Step>): (q: Ring)
    requires Inv(r) && Legal(r, run)
    ensures Inv(q) && |q.buf| == |r.buf| && q.e == r.e && q.f == r.f
    decreases |run|
  {
    if run == [] then r else DoInv(r, run[0]); After(Do(r, run[0]), run[1..])
  }

  /** ringbuffer_init. */
  ghost predicate Opened(r: Ring) {
    && Booted(r.sys) && r.e < |r.sys.sems| && r.f < |r.sys.sems| && r.e != r.f
    && |r.buf| >= 1 && r.sys.sems[r.e].val == |r.buf| && r.sys.sems[r.f].val == 0
    && r.head == r.tail == 0 && r.putting == map[] && r.wpend == r.rpend == {} && r.accepted == r.delivered == []
  }

  lemma OpenedInv(r: Ring)
    requires Opened(r)
    ensures Inv(r)
  {
    SystemIsSound(r.sys, []);
  }

  /** First in, first out: over every interleaving, what readers got is a prefix
      of what writers put, at most `size` bytes are in flight, the two semaphores
      account for every slot, and nobody waits for what is unclaimed. */
  lemma FirstInFirstOut(r: Ring, run: seq<Step>)
    requires Opened(r)
    ensures Inv(r)
    ensures Legal(r, run) ==>
              var q := After(r, run);
              && q.delivered <= q.accepted
              && |q.accepted| - |q.delivered| <= |r.buf|
              && Credits(q, 0, 0)
              && (q.sys.sems[q.f].waiting != [] ==> InFlight(q) == |q.rpend|)
              && (q.sys.sems[q.e].waiting != [] ==> InFlight(q) + |q.wpend| == |r.buf|)
  {
    OpenedInv(r);
    if Legal(r, run) {
      var q := After(r, run);
      assert SemOk(q.sys, q.f) && SemOk(q.sys, q.e);
    }
  }
}
