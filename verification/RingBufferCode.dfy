/** kernel/ringbuffer.c as code over the kernel's semaphores.  C code that blocks
    in the middle is cut there: PutChar and ReadChar are a call up to where it
    ends or gives up the CPU, PutResume and ReadResume what it does afterwards. */
module RingBufferCode {
  import opened Scheduler
  import opened Semaphores
  import opened SchedulerCode
  import opened RingBuffer

  class Channel {
    const kernel: Kernel
    const e: nat
    const f: nat
    const size: nat
    const buf: array<byte>
    var head: nat
    var tail: nat
    ghost var putting: map<nat, byte>
    ghost var wpend: set<nat>
    ghost var rpend: set<nat>
    ghost var accepted: seq<byte>
    ghost var delivered: seq<byte>

    ghost function Now(): Ring
      reads this, kernel, buf
    {
      Ring(kernel.Now(), e, f, buf[..], head, tail, putting, wpend, rpend, accepted, delivered)
    }

    ghost predicate Valid()
      reads this, kernel, buf
    {
      buf.Length == size && RingBuffer.Inv(Now())
    }

    /** ringbuffer_init, on semaphores that sem_init has set to `size` and 0. */
    constructor (kernel: Kernel, e: nat, f: nat, buf: array<byte>)
      requires buf.Length >= 1 && Booted(kernel.Now())
      requires e < |kernel.sems| && f < |kernel.sems| && e != f
      requires kernel.sems[e].val == buf.Length && kernel.sems[f].val == 0
      modifies buf
      ensures Valid() && Opened(Now()) && this.buf == buf && this.kernel == kernel
      ensures forall i :: 0 <= i < buf.Length ==> buf[i] == 0
    {
      this.kernel, this.e, this.f, this.buf, size := kernel, e, f, buf, buf.Length;
      head, tail, putting, wpend, rpend, accepted, delivered := 0, 0, map[], {}, {}, [], [];
      new;
      for i := 0 to size
        invariant forall j :: 0 <= j < i ==> buf[j] == 0
        modifies buf
      {
        buf[i] := 0;
      }
      OpenedInv(Now());
    }

    /** From `buf[head] = ch` to the signal of full_sem. */
    method StoreByte(ch: byte)
      requires Sane(Now()) && buf.Length == size
      modifies this, kernel, buf
      ensures Now() == Store(old(Now()), ch) && accepted == old(accepted) + [ch]
    {
      hide Scheduler.Inv, SemOk, PlaceOk, Signal;
      ghost var woken := Woken(kernel.Now(), f);
      buf[head] := ch;
      head := (head + 1) % size;
      kernel.SemSignal(f);
      rpend := rpend + woken;
      accepted := accepted + [ch];
    }

    /** From the read of buf[tail] to the signal of empty_sem. */
    method FetchByte() returns (ch: byte)
      requires Sane(Now()) && buf.Length == size
      modifies this, kernel
      ensures Now() == Fetch(old(Now())) && ch == old(buf[tail]) && delivered == old(delivered) + [ch]
    {
      hide Scheduler.Inv, SemOk, PlaceOk, Signal;
      ghost var woken := Woken(kernel.Now(), e);
      ch := buf[tail];
      tail := (tail + 1) % size;
      kernel.SemSignal(e);
      wpend := wpend + woken;
      delivered := delivered + [ch];
    }

    /** ringbuffer_put_char: `done` unless the task had to block. */
    method PutChar(ch: byte) returns (done: bool)
      requires Valid() && Enabled(kernel.Now(), DoWait(e))
      modifies this, kernel, buf
      ensures Valid() && Now() == Put(old(Now()), ch)
      ensures done == (old(kernel.sems)[e].val > 0)
      ensures accepted == if done then old(accepted) + [ch] else old(accepted)
    {
      hide Scheduler.Inv, SemOk, PlaceOk, Wait, Store, Signal, Tracked, Stored, Credits;
      PutInv(Now(), ch);
      done := kernel.sems[e].val > 0;
      ghost var t, r := kernel.cur, Now();
      WaitSane(r, e);
      kernel.SemWait(e);
      assert Now() == r.(sys := Wait(r.sys, e));
      if done {
        StoreByte(ch);
      } else {
        putting := putting[t := ch];
      }
    }

    /** The rest of a ringbuffer_put_char that blocked. */
    method PutResume(ch: byte)
      requires Valid() && kernel.place[kernel.cur] == InWait(e) && putting[kernel.cur] == ch
      modifies this, kernel, buf
      ensures Valid() && Now() == PutMore(old(Now())) && accepted == old(accepted) + [ch]
    {
      hide Scheduler.Inv, SemOk, PlaceOk, Store, Signal, Return, Tracked, Stored, Credits;
      PutMoreInv(Now());
      ghost var t, r := kernel.cur, Now();
      kernel.SemReturn(e);
      wpend := wpend - {t};
      StoreByte(ch);
    }

    /** ringbuffer_read_char: a byte unless the task had to block. */
    method ReadChar() returns (done: bool, ch: byte)
      requires Valid() && Enabled(kernel.Now(), DoWait(f))
      modifies this, kernel
      ensures Valid() && Now() == Get(old(Now()))
      ensures done == (old(kernel.sems)[f].val > 0)
      ensures delivered == if done then old(delivered) + [ch] else old(delivered)
    {
      hide Scheduler.Inv, SemOk, PlaceOk, Wait, Fetch, Signal, Tracked, Stored, Credits;
      GetInv(Now());
      done, ch := kernel.sems[f].val > 0, 0;
      ghost var r := Now();
      WaitSane(r, f);
      kernel.SemWait(f);
      assert Now() == r.(sys := Wait(r.sys, f));
      if done {
        ch := FetchByte();
      }
    }

    /** The rest of a ringbuffer_read_char that blocked. */
    method ReadResume() returns (ch: byte)
      requires Valid() && kernel.place[kernel.cur] == InWait(f)
      modifies this, kernel
      ensures Valid() && Now() == GetMore(old(Now())) && delivered == old(delivered) + [ch]
    {
      hide Scheduler.Inv, SemOk, PlaceOk, Fetch, Signal, Return, Tracked, Stored, Credits;
      GetMoreInv(Now());
      ghost var t := kernel.cur;
      kernel.SemReturn(f);
      rpend := rpend - {t};
      ch := FetchByte();
    }
  }
}
