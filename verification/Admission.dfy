/** Whom log_begin_op lets in: never too many, and, as far as the header count and the
    number of open operations tell, never too few. */
module Admission {
  import opened Common
  import opened LogProtocol

  /** Task `t` inside an operation, whether there was room for it or not. */
  function Forced(s: State, t: TaskId): State
    requires t < |s.tasks|
  {
    State(s.v.(outstanding := s.v.outstanding + 1), s.tasks[t := InOp(s.next, {})], s.next + 1, s.base)
  }

  /** The open operations can log, each within its ten blocks, more than the log holds. */
  ghost predicate Overflows(s: State) {
    exists es :: Legal(s, es) && |After(s, es).v.lh| > LOG_SIZE
  }

  // ------------------------------------------------------------------
  // When an entry overflows the log
  // ------------------------------------------------------------------

  lemma ForcedCounts(s: State, t: TaskId)
    requires Enabled(s, Begin(t))
    ensures var z := Forced(s, t); Unused(z.tasks) == Unused(s.tasks) + MAX_OPEN_BLOCKS && Ops(z.tasks) == Ops(s.tasks) + 1
  {
    CountUpdate(s.tasks, t, InOp(s.next, {}));
  }

  lemma ForcedInv(s: State, t: TaskId)
    requires Inv(s) && Enabled(s, Begin(t)) && !s.v.committing
    requires |s.v.lh| + Unused(s.tasks) + MAX_OPEN_BLOCKS <= LOG_SIZE
    ensures Inv(Forced(s, t))
  {
    var z := Forced(s, t);
    ForcedCounts(s, t);
    QueueInvKept(s, z);
    CommitInvKept(s, z);
    assert OpInv(z) by { hide QueueInv, CommitInv, SpaceInv, NoLostWakeup; }
  }

  /** What an operation has logged is in the header, and at most ten blocks. */
  predicate Orderly(s: State) {
    forall t :: 0 <= t < |s.tasks| && s.tasks[t].InOp? ==>
      |s.tasks[t].logged| <= MAX_OPEN_BLOCKS && forall b :: b in s.tasks[t].logged ==> b in s.v.lh
  }

  lemma ForcedOrderly(s: State, t: TaskId)
    requires Inv(s) && t < |s.tasks|
    ensures Orderly(Forced(s, t))
  {
    hide SpaceInv, CommitInv, QueueInv, NoLostWakeup;
  }

  function Above(q: seq<nat>): (b: nat)
    ensures forall x :: x in q ==> x < b
  {
    if q == [] then 0
    else
      var m, l := Above(q[..|q| - 1]), q[|q| - 1];
      assert forall x :: x in q ==> x in q[..|q| - 1] || x == l;
      if l < m then m else l + 1
  }

  lemma {:induction false} SomebodyMayLog(tasks: seq<Pc>) returns (t: nat)
    requires Unused(tasks) > 0
    ensures t < |tasks| && tasks[t].InOp? && |tasks[t].logged| < MAX_OPEN_BLOCKS
  {
    var m := |tasks| - 1;
    if Reserved(tasks[m]) > 0 { t := m; } else { t := SomebodyMayLog(tasks[..m]); }
  }

  lemma LogFresh(s: State, t: TaskId, b: nat)
    requires Orderly(s) && t < |s.tasks| && s.tasks[t].InOp? && |s.tasks[t].logged| < MAX_OPEN_BLOCKS && b !in s.v.lh
    ensures Enabled(s, LogWrite(t, b))
    ensures var z := Next(s, LogWrite(t, b));
            Orderly(z) && |z.v.lh| == |s.v.lh| + 1 && Unused(z.tasks) + 1 == Unused(s.tasks)
  {
    var logged := s.tasks[t].logged;
    assert b !in logged && |logged + {b}| == |logged| + 1;
    CountUpdate(s.tasks, t, Next(s, LogWrite(t, b)).tasks[t]);
  }

  /** All reservations can be used up by blocks that are not yet logged. */
  lemma {:induction false} UseUp(s: State) returns (es: seq<Step>)
    requires Orderly(s)
    ensures Legal(s, es) && |After(s, es).v.lh| == |s.v.lh| + Unused(s.tasks)
    decreases Unused(s.tasks)
  {
    hide Orderly, Enabled, Next;
    es := [];
    if Unused(s.tasks) > 0 {
      var t := SomebodyMayLog(s.tasks);
      var e := LogWrite(t, Above(s.v.lh));
      LogFresh(s, t, Above(s.v.lh));
      var more := UseUp(Next(s, e));
      es := [e] + more;
      assert es[0] == e && es[1..] == more;
    }
  }

  /** Outside a commit, letting one more task in makes it possible to overflow the log
      if and only if what is logged and what may still be logged leave no ten blocks. */
  lemma OverflowExactly(s: State, t: TaskId)
    requires Inv(s) && Enabled(s, Begin(t)) && !s.v.committing
    ensures Overflows(Forced(s, t)) <==> |s.v.lh| + Unused(s.tasks) + MAX_OPEN_BLOCKS > LOG_SIZE
  {
    hide Inv, Orderly, Next;
    var z := Forced(s, t);
    hide Enabled;
    assert Unused(z.tasks) == Unused(s.tasks) + MAX_OPEN_BLOCKS by { ForcedCounts(s, t); }
    if |s.v.lh| + Unused(s.tasks) + MAX_OPEN_BLOCKS > LOG_SIZE {
      ForcedOrderly(s, t);
      var es := UseUp(z);
    } else {
      ForcedInv(s, t);
      forall es | Legal(z, es) ensures |After(z, es).v.lh| <= LOG_SIZE {
        InvAfter(z, es);
        InvFits(After(z, es));
      }
    }
  }

  lemma InvFits(s: State)
    requires Inv(s)
    ensures |s.v.lh| <= LOG_SIZE
  {
  }

  // ------------------------------------------------------------------
  // Who is let in
  // ------------------------------------------------------------------

  /** The guard, and that nobody who is let in can overflow the log. */
  lemma AdmittedIsSafe(s: State, t: TaskId)
    requires Inv(s) && Enabled(s, Begin(t))
    ensures Next(s, Begin(t)).tasks[t].InOp? <==> !s.v.committing && |s.v.lh| + 10 * s.v.outstanding + 10 <= 30
    ensures Next(s, Begin(t)).tasks[t].InOp? ==> Next(s, Begin(t)) == Forced(s, t) && !Overflows(Forced(s, t))
  {
    BeginEffect(s.v, t);
    UnusedBound(s.tasks);
    if Next(s, Begin(t)).tasks[t].InOp? { OverflowExactly(s, t); }
  }

  /** What an operation that has logged `n` blocks in turn with two others looks like. */
  function Share(n: nat, u: nat): set<nat> {
    Span(10 * u, if n <= 10 * u then 0 else if n >= 10 * u + 10 then 10 else n - 10 * u)
  }

  /** Three operations have begun and logged `n` blocks, one after the other; the last
      `o` of them are still open; a fourth task is outside. */
  ghost predicate Filling(z: State, n: nat, o: nat) {
    && n <= 30 && 1 <= o <= 3 && |z.tasks| == 4 && z.tasks[3] == Out
    && z.v == BootView.(lh := Iota(n), outstanding := o)
    && (forall u :: 3 - o <= u < 3 ==> z.tasks[u].InOp? && z.tasks[u].logged == Share(n, u))
    && (forall u :: 0 <= u < 3 - o ==> z.tasks[u] == Out)
  }

  ghost predicate Reached(z: State) {
    exists s, es :: Boot(s) && Legal(s, es) && After(s, es) == z
  }

  lemma ReachedNext(z: State, e: Step)
    requires Reached(z) && Enabled(z, e)
    ensures Reached(Next(z, e))
  {
    hide Boot, Enabled, Next;
    var s, es :| Boot(s) && Legal(s, es) && After(s, es) == z;
    LegalSnoc(s, es, e);
  }

  lemma ThreeBegin() returns (z: State)
    ensures Reached(z) && Filling(z, 0, 3)
  {
    var s := State(BootView, [Out, Out, Out, Out], 0, 0);
    assert Legal(s, []) && After(s, []) == s;
    ReachedNext(s, Begin(0));
    var a := Next(s, Begin(0));
    ReachedNext(a, Begin(1));
    var b := Next(a, Begin(1));
    ReachedNext(b, Begin(2));
    z := Next(b, Begin(2));
  }

  lemma FillingNext(z: State, n: nat)
    requires Filling(z, n, 3) && n < 30
    ensures Enabled(z, LogWrite(n / 10, n)) && Filling(Next(z, LogWrite(n / 10, n)), n + 1, 3)
  {
    hide Share;
    var t := n / 10;
    assert LogBlock(z.v.lh, n) == Iota(n + 1);
    ShareNext(n, t);
    forall u | 0 <= u < 3 && u != t ensures Share(n + 1, u) == Share(n, u) { ShareSame(n, u); }
  }

  lemma ShareNext(n: nat, t: nat)
    requires t == n / 10
    ensures Share(n, t) + {n} == Share(n + 1, t) && |Share(n, t)| < 10
  {
  }

  lemma ShareSame(n: nat, u: nat)
    requires u != n / 10
    ensures Share(n + 1, u) == Share(n, u)
  {
  }

  lemma {:induction false} FilledThree(n: nat) returns (z: State)
    requires n <= 30
    ensures Reached(z) && Filling(z, n, 3)
  {
    hide Filling, Reached, Enabled, Next;
    if n == 0 {
      z := ThreeBegin();
    } else {
      var y := FilledThree(n - 1);
      FillingNext(y, n - 1);
      ReachedNext(y, LogWrite((n - 1) / 10, n - 1));
      z := Next(y, LogWrite((n - 1) / 10, n - 1));
    }
  }

  lemma FillingEnds(z: State, n: nat, o: nat)
    requires Filling(z, n, o) && o > 1
    ensures Enabled(z, End(3 - o)) && Filling(Next(z, End(3 - o)), n, o - 1)
  {
  }

  lemma {:induction false} Filled(n: nat, o: nat) returns (z: State)
    requires n <= 30 && 1 <= o <= 3
    ensures Reached(z) && Filling(z, n, o)
    decreases 3 - o
  {
    hide Filling, Reached, Enabled, Next;
    if o == 3 {
      z := FilledThree(n);
    } else {
      var y := Filled(n, o + 1);
      FillingEnds(y, n, o + 1);
      ReachedNext(y, End(3 - (o + 1)));
      z := Next(y, End(3 - (o + 1)));
    }
  }

  lemma FillingUnused(z: State, n: nat, o: nat)
    requires Filling(z, n, o) && n + 10 * o + 10 > 30
    ensures |z.v.lh| == n && n + Unused(z.tasks) + 10 > 30
  {
    var t := z.tasks;
    assert t[..4] == t && t[..4][..3] == t[..3] && t[..3][..2] == t[..2] && t[..2][..1] == t[..1] && t[..1][..0] == [];
    assert Unused(t[..1]) == Reserved(t[0]);
    assert Unused(t[..2]) == Reserved(t[0]) + Reserved(t[1]);
    assert Unused(t) == Reserved(t[0]) + Reserved(t[1]) + Reserved(t[2]);
  }

  // No more than three operations are ever open.

  lemma OpenStep(s: State, e: Step)
    requires Inv(s) && Enabled(s, e) && s.v.outstanding <= 3
    ensures Next(s, e).v.outstanding <= 3
  {
    if e.Begin? { BeginEffect(s.v, e.t); }
  }

  lemma {:induction false} OpenRun(s: State, es: seq<Step>)
    requires Inv(s) && s.v.outstanding <= 3 && Legal(s, es)
    ensures After(s, es).v.outstanding <= 3
    decreases es
  {
    hide Inv, Enabled, Next;
    if es != [] {
      InvNext(s, es[0]);
      OpenStep(s, es[0]);
      OpenRun(Next(s, es[0]), es[1..]);
    }
  }

  /** Outside a commit the guard turns a task away only if some reachable state with the
      same header count and the same number of open operations overflows when one more
      task is let in.  No guard that looks at these two alone lets more in. */
  lemma RefusedForReason(z: State, t: TaskId) returns (y: State)
    requires Reached(z) && Enabled(z, Begin(t)) && !z.v.committing && !Next(z, Begin(t)).tasks[t].InOp?
    ensures Reached(y) && |y.v.lh| == |z.v.lh| && y.v.outstanding == z.v.outstanding && !y.v.committing
    ensures Enabled(y, Begin(3)) && Overflows(Forced(y, 3))
  {
    var s, es :| Boot(s) && Legal(s, es) && After(s, es) == z;
    ReachedInv(z);
    OpenRun(s, es) by { InvBoot(s); }
    AdmittedIsSafe(z, t);
    InvFits(z);
    assert 1 <= z.v.outstanding by { if z.v.outstanding <= 0 { IdleIsEmpty(z); } }
    hide Inv, Reached, Overflows, Legal, After, Next;
    y := Filled(|z.v.lh|, z.v.outstanding);
    FillingUnused(y, |z.v.lh|, z.v.outstanding);
    ReachedInv(y);
    OverflowExactly(y, 3);
  }

  lemma IdleIsEmpty(s: State)
    requires Inv(s) && !s.v.committing && s.v.outstanding <= 0
    ensures s.v.lh == [] && s.v.outstanding == 0
  {
  }

  lemma ReachedInv(z: State)
    requires Reached(z)
    ensures Inv(z)
  {
    var s, es :| Boot(s) && Legal(s, es) && After(s, es) == z;
    InvBoot(s);
    InvAfter(s, es);
  }

  /** It does not look at what each open operation has used of its ten blocks.  Knowing
      that, it could let more in: here a task is turned away that could do no harm. */
  lemma RefusedNeedlessly() returns (z: State)
    ensures Reached(z) && !z.v.committing && Enabled(z, Begin(2))
    ensures !Next(z, Begin(2)).tasks[2].InOp? && !Overflows(Forced(z, 2))
  {
    hide Overflows, Reached, Inv, Next, Unused;
    z := TwoFilled(10);
    ReachedInv(z);
    AdmittedIsSafe(z, 2);
    TwoUnused(z, 10);
    OverflowExactly(z, 2);
  }

  /** Two operations are open and the first has logged `k` blocks. */
  ghost predicate Two(z: State, k: nat) {
    && |z.tasks| == 3 && z.tasks[2] == Out && z.v == BootView.(lh := Iota(k), outstanding := 2)
    && z.tasks[0].InOp? && z.tasks[0].logged == Span(0, k) && z.tasks[1].InOp? && z.tasks[1].logged == {}
  }

  lemma TwoBegin() returns (z: State)
    ensures Reached(z) && Two(z, 0)
  {
    var s := State(BootView, [Out, Out, Out], 0, 0);
    assert Legal(s, []) && After(s, []) == s;
    ReachedNext(s, Begin(0));
    var a := Next(s, Begin(0));
    ReachedNext(a, Begin(1));
    z := Next(a, Begin(1));
  }

  lemma TwoNext(z: State, k: nat)
    requires Two(z, k) && k < 10
    ensures Enabled(z, LogWrite(0, k)) && Two(Next(z, LogWrite(0, k)), k + 1)
  {
    assert LogBlock(z.v.lh, k) == Iota(k + 1);
    assert Span(0, k) + {k} == Span(0, k + 1);
  }

  lemma {:induction false} TwoFilled(k: nat) returns (z: State)
    requires k <= 10
    ensures Reached(z) && Two(z, k)
  {
    hide Reached, Two, Enabled, Next;
    if k == 0 {
      z := TwoBegin();
    } else {
      var y := TwoFilled(k - 1);
      TwoNext(y, k - 1);
      ReachedNext(y, LogWrite(0, k - 1));
      z := Next(y, LogWrite(0, k - 1));
    }
  }

  lemma TwoUnused(z: State, k: nat)
    requires Two(z, k) && k <= 10
    ensures |z.v.lh| == k && Unused(z.tasks) == 20 - k
  {
    var t := z.tasks;
    assert t[..2][..1] == t[..1] && t[..1][..0] == [];
    assert Unused(t[..1]) == Reserved(t[0]);
    assert Unused(t[..2]) == Reserved(t[0]) + Reserved(t[1]);
  }
}
