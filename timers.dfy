/**
 * Timing control of timers.c: the non-blocking delay test TIMER_DelayTimer,
 * the elapsed-time bookkeeping of TIMER_SoftTimersUpdate, and the table of
 * ten software timers.  The system tick is a uint32_t that wraps; the
 * current tick is passed in as `now`.  A callback is an opaque handle, and
 * calling it is recorded in a log of fired timer ids.
 */
module Timers {
  import opened Stdint

  const MAX_SOFT_TIMERS: uint8 := 10

  /** Ticks from `start` to `now` on the wrapping 32-bit clock. */
  function Elapsed(start: uint32, now: uint32): (d: uint32)
    ensures (start + d) % UINT32_MODULUS == now
    ensures d == 0 <==> now == start
  {
    if now >= start then now - start else UINT32_MODULUS - start + now
  }

  /**
   * TIMER_DelayTimer(ms, start) read at tick `now`.  Without a wrap it holds
   * once more than `ms` ticks have passed; across a wrap its difference
   * `UINT32_MAX - start + now` is one short, so it needs one tick more.  The
   * wrapped difference is a uint32_t, so it never overflows.
   */
  function DelayTimer(ms: uint32, start: uint32, now: uint32): (reached: bool)
    ensures reached <==> Elapsed(start, now) > ms + (if now < start then 1 else 0)
    ensures reached ==> Elapsed(start, now) > ms
    ensures now == start ==> !reached
  {
    if now >= start && now - start > ms then true
    else if now < start && (var waited: uint32 := UINT32_MAX - start + now; waited > ms) then true
    else false
  }

  /** The `delta` of TIMER_SoftTimersUpdate: the elapsed ticks without a
      wrap, one tick fewer across a wrap. */
  function Delta(prev: uint32, now: uint32): (delta: uint32)
    ensures now >= prev ==> delta == Elapsed(prev, now)
    ensures now < prev ==> delta + 1 == Elapsed(prev, now)
  {
    if now >= prev then now - prev else UINT32_MAX - prev + now
  }

  /** `prevVal += delta`: the new `prevVal` is `now`, or one tick behind it
      after a wrap. */
  function NextPrev(prev: uint32, now: uint32): (p: uint32)
    ensures now >= prev ==> p == now
    ensures now < prev ==> (p + 1) % UINT32_MODULUS == now
  {
    (prev + Delta(prev, now)) % UINT32_MODULUS
  }

  /** Sum of the deltas of successive updates at ticks `nows`. */
  function TotalDelta(prev: uint32, nows: seq<uint32>): (total: nat)
    decreases |nows|
  {
    if nows == [] then 0 else Delta(prev, nows[0]) + TotalDelta(NextPrev(prev, nows[0]), nows[1..])
  }

  /** `prevVal` after successive updates at ticks `nows`. */
  function FinalPrev(prev: uint32, nows: seq<uint32>): (p: uint32)
    decreases |nows|
  {
    if nows == [] then prev else FinalPrev(NextPrev(prev, nows[0]), nows[1..])
  }

  lemma ModAddLeft(a: int, b: int)
    ensures (a % UINT32_MODULUS + b) % UINT32_MODULUS == (a + b) % UINT32_MODULUS
  {
    assert a == (a / UINT32_MODULUS) * UINT32_MODULUS + a % UINT32_MODULUS;
  }

  /** Over any run of updates the deltas handed to the timers add up, modulo
      2^32, to exactly how far `prevVal` moved. */
  lemma {:induction false} NoTimeLost(prev: uint32, nows: seq<uint32>)
    ensures (prev + TotalDelta(prev, nows)) % UINT32_MODULUS == FinalPrev(prev, nows)
    decreases |nows|
  {
    if nows != [] {
      var p1 := NextPrev(prev, nows[0]);
      NoTimeLost(p1, nows[1..]);
      ModAddLeft(prev + Delta(prev, nows[0]), TotalDelta(p1, nows[1..]));
    }
  }

  /** After any run of updates `prevVal` is at most one tick behind the
      latest `now`. */
  lemma {:induction false} PrevTrailsNow(prev: uint32, nows: seq<uint32>)
    requires nows != []
    ensures var last, p := nows[|nows| - 1], FinalPrev(prev, nows);
      p == last || (p + 1) % UINT32_MODULUS == last
    decreases |nows|
  {
    if |nows| > 1 {
      PrevTrailsNow(NextPrev(prev, nows[0]), nows[1..]);
      assert nows[1..][|nows[1..]| - 1] == nows[|nows| - 1];
    } else {
      assert FinalPrev(NextPrev(prev, nows[0]), nows[1..]) == NextPrev(prev, nows[0]);
    }
  }

  /** Two ticks that agree modulo 2^32 after the same start differ by a
      whole number of wraps. */
  lemma ModCancel(start: nat, a: nat, e: nat)
    requires e < UINT32_MODULUS && (start + a) % UINT32_MODULUS == (start + e) % UINT32_MODULUS
    ensures a % UINT32_MODULUS == e
  {
    var q1, q2 := (start + a) / UINT32_MODULUS, (start + e) / UINT32_MODULUS;
    assert start + a == q1 * UINT32_MODULUS + (start + a) % UINT32_MODULUS;
    assert start + e == q2 * UINT32_MODULUS + (start + e) % UINT32_MODULUS;
    assert a == (q1 - q2) * UINT32_MODULUS + e;
  }

  /**
   * The ticks handed over by a run of updates, against the time that really
   * passed from the first `prevVal` to the latest `now`: exactly that time
   * (modulo 2^32) when the final `prevVal` is the latest `now`, which is the
   * case whenever the last update did not wrap, and one tick less otherwise.
   * So at most one tick is outstanding, and it is handed over by the first
   * later update that does not itself wrap.
   */
  lemma ElapsedAccounted(prev: uint32, nows: seq<uint32>)
    requires nows != []
    ensures var last, total := nows[|nows| - 1], TotalDelta(prev, nows);
      (FinalPrev(prev, nows) == last ==> total % UINT32_MODULUS == Elapsed(prev, last)) &&
      (FinalPrev(prev, nows) != last ==> (total + 1) % UINT32_MODULUS == Elapsed(prev, last))
  {
    var last, total, p := nows[|nows| - 1], TotalDelta(prev, nows), FinalPrev(prev, nows);
    var e := Elapsed(prev, last);
    NoTimeLost(prev, nows);
    PrevTrailsNow(prev, nows);
    if p == last {
      ModCancel(prev, total, e);
    } else {
      ModAddLeft(prev + total, 1);
      ModCancel(prev, total + 1, e);
    }
  }

  /** Across the wrap from 0xFFFFFFF0 to 0x10 (32 ticks) the update hands the
      timers 31 ticks and leaves `prevVal` at 0x0F; a later update that does
      not wrap, here at 0x11, hands over the missing tick together with the
      new ones. */
  lemma WrapDeltaExample()
    ensures Elapsed(0xFFFF_FFF0, 0x10) == 32
    ensures Delta(0xFFFF_FFF0, 0x10) == 31 && NextPrev(0xFFFF_FFF0, 0x10) == 0x0F
    ensures Delta(0x0F, 0x11) == 2 && NextPrev(0x0F, 0x11) == 0x11
  {
  }

  /** A wrapping update that lands on tick 0 leaves `prevVal` at 0xFFFFFFFF,
      so the next update, at tick 5, wraps too and still leaves the tick
      outstanding; only the update at 6, which does not wrap, hands it over:
      15 + 5 + 2 ticks for the 22 that passed. */
  lemma WrapAtZeroExample()
    ensures Delta(0xFFFF_FFF0, 0) == 15 && NextPrev(0xFFFF_FFF0, 0) == 0xFFFF_FFFF
    ensures Delta(0xFFFF_FFFF, 5) == 5 && NextPrev(0xFFFF_FFFF, 5) == 4
    ensures Delta(4, 6) == 2 && NextPrev(4, 6) == 6
    ensures Elapsed(0xFFFF_FFF0, 6) == 22
  {
  }

  /** A function pointer: NULL, or a handler to call on overflow. */
  datatype Callback = Null | Handler(handle: nat)

  /** TIMER_Soft_TypeDef; `active` is only ever set to 0 or 1. */
  datatype SoftTimer = SoftTimer(id: uint8, value: uint32, max: uint32, active: bool, overflowCallback: Callback)

  /** `value += delta` on a uint32_t. */
  function AddWrap(value: uint32, delta: uint32): (v: uint32)
    ensures value + delta < UINT32_MODULUS ==> v == value + delta
    ensures value + delta >= UINT32_MODULUS ==> v == value + delta - UINT32_MODULUS
  {
    (value + delta) % UINT32_MODULUS
  }

  /** The timer overflows in this update. */
  predicate Overflows(t: SoftTimer, delta: uint32)
  {
    t.active && AddWrap(t.value, delta) >= t.max
  }

  /** One pass of the update loop over one timer. */
  function Step(t: SoftTimer, delta: uint32): (u: SoftTimer)
    ensures u.id == t.id && u.max == t.max && u.active == t.active && u.overflowCallback == t.overflowCallback
    ensures !t.active ==> u == t
    ensures Overflows(t, delta) ==> u.value == 0
    ensures t.active ==> u.value < u.max || u.value == 0
    ensures t.active && !Overflows(t, delta) ==> u.value == AddWrap(t.value, delta) < t.max
  {
    if !t.active then t
    else if AddWrap(t.value, delta) >= t.max then t.(value := 0)
    else t.(value := AddWrap(t.value, delta))
  }

  /** Overflow discards the excess: a timer with period `max` that is hit by
      a delta spanning several periods still restarts from 0, so it fires
      once and loses the extra periods. */
  lemma OverflowDiscardsExcess(t: SoftTimer, delta: uint32)
    requires t.active && t.value + delta < UINT32_MODULUS && t.value + delta >= 2 * t.max
    ensures Overflows(t, delta) && Step(t, delta).value == 0
    ensures t.value + delta - t.max >= t.max
  {
  }

  /** The table after the first `n` timers have each been stepped. */
  function StepFirst(ts: seq<SoftTimer>, n: nat, delta: uint32): (us: seq<SoftTimer>)
    requires n <= |ts|
    ensures |us| == |ts|
    ensures forall i :: 0 <= i < n ==> us[i] == Step(ts[i], delta)
    ensures forall i :: n <= i < |ts| ==> us[i] == ts[i]
  {
    seq(|ts|, i requires 0 <= i < |ts| => if i < n then Step(ts[i], delta) else ts[i])
  }

  lemma StepFirstNext(ts: seq<SoftTimer>, n: nat, delta: uint32)
    requires n < |ts|
    ensures StepFirst(ts, n + 1, delta) == StepFirst(ts, n, delta)[n := Step(ts[n], delta)]
  {
  }

  /** Ids of the callbacks fired while stepping timers `0 .. n-1`. */
  function FiredIds(ts: seq<SoftTimer>, n: nat, delta: uint32): (ids: seq<nat>)
    requires n <= |ts|
    ensures forall j :: 0 <= j < |ids| ==> ids[j] < n
    ensures forall j, k :: 0 <= j < k < |ids| ==> ids[j] < ids[k]
    ensures forall i :: 0 <= i < n ==> (i in ids <==> Overflows(ts[i], delta) && ts[i].overflowCallback != Null)
  {
    if n == 0 then []
    else
      var fire := Overflows(ts[n - 1], delta) && ts[n - 1].overflowCallback != Null;
      FiredIds(ts, n - 1, delta) + (if fire then [n - 1] else [])
  }

  /** The guard of TIMER_AddSoftTimer as written: `softTimerCount > MAX_SOFT_TIMERS` rejects. */
  predicate AdmitsAsWritten(count: uint8)
  {
    !(count > MAX_SOFT_TIMERS)
  }

  /** As written, the guard admits the call made at `softTimerCount == 10`,
      which then fills slot 10 of the 10-entry table; only the following
      call is refused. */
  lemma EleventhTimerAdmittedAsWritten(table: SoftTimerTable)
    requires table.Valid()
    ensures AdmitsAsWritten(MAX_SOFT_TIMERS)
    ensures MAX_SOFT_TIMERS as int >= table.softTimers.Length
    ensures forall count: uint8 :: AdmitsAsWritten(count) <==> count <= MAX_SOFT_TIMERS
  {
  }

  class SoftTimerTable {
    /** softTimers[MAX_SOFT_TIMERS]. */
    const softTimers: array<SoftTimer>
    var softTimerCount: uint8
    /** The static `prevVal` of TIMER_SoftTimersUpdate. */
    var prevVal: uint32
    /** Ids of the timers whose callbacks have been called, oldest first. */
    var fired: seq<nat>

    ghost predicate Valid()
      reads this, softTimers
    {
      softTimers.Length == MAX_SOFT_TIMERS as int && softTimerCount <= MAX_SOFT_TIMERS &&
      forall i :: 0 <= i < softTimerCount ==> softTimers[i].id == i
    }

    /** The zero-initialised statics. */
    constructor ()
      ensures Valid() && fresh(softTimers)
      ensures softTimerCount == 0 && prevVal == 0 && fired == []
      ensures forall i :: 0 <= i < softTimers.Length ==> softTimers[i] == SoftTimer(0, 0, 0, false, Null)
    {
      softTimers := new SoftTimer[MAX_SOFT_TIMERS](_ => SoftTimer(0, 0, 0, false, Null));
      softTimerCount := 0;
      prevVal := 0;
      fired := [];
    }

    /**
     * TIMER_AddSoftTimer with the guard corrected to
     * `softTimerCount >= MAX_SOFT_TIMERS`: a full table returns -1 and is
     * unchanged, otherwise the next slot gets an inactive timer at 0 with
     * the given period and callback, and its id is returned.
     */
    method AddSoftTimer(maxVal: uint32, fun: Callback) returns (r: int8)
      requires Valid()
      modifies this, softTimers
      ensures Valid()
      ensures r == -1 <==> old(softTimerCount) >= MAX_SOFT_TIMERS
      ensures r == -1 ==> softTimerCount == old(softTimerCount) && softTimers[..] == old(softTimers[..])
      ensures r != -1 ==>
        r == old(softTimerCount) as int && softTimerCount == old(softTimerCount) + 1 &&
        softTimers[..] == old(softTimers[..])[r := SoftTimer(r as uint8, 0, maxVal, false, fun)]
      ensures prevVal == old(prevVal) && fired == old(fired)
    {
      if softTimerCount >= MAX_SOFT_TIMERS {
        return -1;
      }
      softTimers[softTimerCount] := SoftTimer(softTimerCount, 0, maxVal, false, fun);
      softTimerCount := softTimerCount + 1;
      return (softTimerCount - 1) as int8;
    }

    /** TIMER_StartSoftTimer: timer `id` restarts from 0 and runs. */
    method Start(id: uint8)
      requires Valid() && id < MAX_SOFT_TIMERS
      modifies softTimers
      ensures Valid()
      ensures softTimers[..] == old(softTimers[..])[id := old(softTimers[id]).(value := 0, active := true)]
    {
      softTimers[id] := softTimers[id].(value := 0, active := true);
    }

    /** TIMER_PauseSoftTimer: timer `id` stops, keeping its count. */
    method Pause(id: uint8)
      requires Valid() && id < MAX_SOFT_TIMERS
      modifies softTimers
      ensures Valid()
      ensures softTimers[..] == old(softTimers[..])[id := old(softTimers[id]).(active := false)]
    {
      softTimers[id] := softTimers[id].(active := false);
    }

    /** TIMER_ResumeSoftTimer: timer `id` runs on from its count. */
    method Resume(id: uint8)
      requires Valid() && id < MAX_SOFT_TIMERS
      modifies softTimers
      ensures Valid()
      ensures softTimers[..] == old(softTimers[..])[id := old(softTimers[id]).(active := true)]
    {
      softTimers[id] := softTimers[id].(active := true);
    }

    /**
     * TIMER_SoftTimersUpdate at tick `now`: every registered timer is
     * stepped by the delta since the last update, in index order, and the
     * non-NULL callback of each one that overflows is called once.
     */
    method Update(now: uint32)
      requires Valid()
      modifies this, softTimers
      ensures Valid()
      ensures softTimerCount == old(softTimerCount)
      ensures prevVal == NextPrev(old(prevVal), now)
      ensures softTimers[..] == StepFirst(old(softTimers[..]), softTimerCount as nat, Delta(old(prevVal), now))
      ensures fired == old(fired) + FiredIds(old(softTimers[..]), softTimerCount as nat, Delta(old(prevVal), now))
    {
      var delta: uint32;
      if now >= prevVal {
        delta := now - prevVal;
      } else {
        delta := UINT32_MAX - prevVal + now;
      }
      assert delta == Delta(prevVal, now);
      prevVal := (prevVal + delta) % UINT32_MODULUS;
      StepAll(delta);
    }

    /** The `for` loop of TIMER_SoftTimersUpdate: steps timers `0 .. softTimerCount-1` in order. */
    method StepAll(delta: uint32)
      requires Valid()
      modifies this`fired, softTimers
      ensures Valid()
      ensures softTimers[..] == StepFirst(old(softTimers[..]), softTimerCount as nat, delta)
      ensures fired == old(fired) + FiredIds(old(softTimers[..]), softTimerCount as nat, delta)
    {
      ghost var ts := softTimers[..];
      var i: uint8 := 0;
      while i < softTimerCount
        invariant i <= softTimerCount && Valid()
        invariant softTimers[..] == StepFirst(ts, i as nat, delta)
        invariant fired == old(fired) + FiredIds(ts, i as nat, delta)
      {
        StepFirstNext(ts, i as nat, delta);
        StepOne(i, delta);
        i := i + 1;
      }
    }

    /** The body of the update loop for timer `i`. */
    method StepOne(i: uint8, delta: uint32)
      requires Valid() && i < softTimerCount
      modifies this`fired, softTimers
      ensures Valid()
      ensures softTimers[..] == old(softTimers[..])[i := Step(old(softTimers[i]), delta)]
      ensures fired == old(fired) +
        (if Overflows(old(softTimers[i]), delta) && old(softTimers[i]).overflowCallback != Null then [i as nat] else [])
    {
      var t := softTimers[i];
      if t.active {
        var value := AddWrap(t.value, delta);
        if value >= t.max {
          softTimers[i] := t.(value := 0);
          if t.overflowCallback != Null {
            fired := fired + [i as nat];
          }
        } else {
          softTimers[i] := t.(value := value);
        }
      }
    }
  }
}
