/** ecu/delay.h: delayed conditions and stability detectors. The logic of
    delay_rising, delay_falling and delay_stable_{s32,f32} is the same in
    both copies of the header (01.04.00.0017 and 01.04.00.0087); the copies
    differ in the state of delay_signal*_f32, whose bodies are compiled
    elsewhere and only whose `_init` functions are modelled here. `now` is
    the s32 reading of ticks_u32() and `ticks` is
    `(s32)(delay / tick_period_f32())` of the unclamped delay. */
module Delay {
  import opened Int32
  import opened Deadline

  /** delay_rising_state, delay_falling_state. */
  datatype Delayed = Delayed(prev: bool, expire: s32, latch: bool)

  /** delay_rising: a rising edge starts the delay; the output becomes true
      once the condition has held until the delay expired, and false as soon
      as the condition is false. */
  function RisingStep(s: Delayed, cond: bool, now: s32, ticks: s32): (r: Delayed)
    ensures r.prev == cond
    ensures !s.prev && cond ==> r.expire == Arm(now, Clamp(ticks))
    ensures !(!s.prev && cond) ==> r.expire == s.expire
    ensures !cond ==> !r.latch
    ensures cond ==> (r.latch <==> s.latch || Expired(now, r.expire))
  {
    var expire := if !s.prev && cond then Arm(now, Clamp(ticks)) else s.expire;
    var latch := if cond && !s.latch && Expired(now, expire) then true else s.latch;
    Delayed(cond, expire, if !cond then false else latch)
  }

  /** delay_falling: the mirror image; the output is true at once with the
      condition, and becomes false once the condition has stayed false until
      the delay after the falling edge expired. */
  function FallingStep(s: Delayed, cond: bool, now: s32, ticks: s32): (r: Delayed)
    ensures r.prev == cond
    ensures s.prev && !cond ==> r.expire == Arm(now, Clamp(ticks))
    ensures !(s.prev && !cond) ==> r.expire == s.expire
    ensures cond ==> r.latch
    ensures !cond ==> (!r.latch <==> !s.latch || Expired(now, r.expire))
  {
    var expire := if s.prev && !cond then Arm(now, Clamp(ticks)) else s.expire;
    var latch := if !cond && s.latch && Expired(now, expire) then false else s.latch;
    Delayed(cond, expire, if cond then true else latch)
  }

  /** The rising delay: a rising edge at `start` with the condition still
      true e ticks later gives a true output at the first call iff the
      clamped delay is 0, and at the second iff e reaches it. */
  lemma {:induction false} RisingDelay(s: Delayed, start: s32, ticks: s32, e: int)
    requires !s.prev && !s.latch
    requires 0 <= e <= S32_MAX
    ensures RisingStep(s, true, start, ticks).latch <==> Clamp(ticks) == 0
    ensures RisingStep(RisingStep(s, true, start, ticks), true, Wrap(start + e), ticks).latch <==>
              e >= Clamp(ticks)
  {
    ArmedNow(start, Clamp(ticks));
    ExpiredAfter(start, Clamp(ticks), e);
  }

  /** The falling delay: a falling edge at `start` with the condition still
      false e ticks later gives a false output at the first call iff the
      clamped delay is 0, and at the second iff e reaches it. */
  lemma {:induction false} FallingDelay(s: Delayed, start: s32, ticks: s32, e: int)
    requires s.prev && s.latch
    requires 0 <= e <= S32_MAX
    ensures !FallingStep(s, false, start, ticks).latch <==> Clamp(ticks) == 0
    ensures !FallingStep(FallingStep(s, false, start, ticks), false, Wrap(start + e), ticks).latch <==>
              e >= Clamp(ticks)
  {
    ArmedNow(start, Clamp(ticks));
    ExpiredAfter(start, Clamp(ticks), e);
  }

  /** The two delays are duals: delaying the falling edge of a condition is
      delaying the rising edge of its negation, with the output negated. */
  lemma FallingIsRisingNegated(s: Delayed, cond: bool, now: s32, ticks: s32)
    ensures var f := FallingStep(s, cond, now, ticks);
      var r := RisingStep(Delayed(!s.prev, s.expire, !s.latch), !cond, now, ticks);
      f == Delayed(!r.prev, r.expire, !r.latch)
  {
  }

  /** delay_rising_state and delay_falling_state. */
  class DelayedState {
    var prev: bool
    var expire: s32
    var latch: bool

    function State(): Delayed
      reads this
    {
      Delayed(prev, expire, latch)
    }

    /** Zero-initialised static storage. */
    constructor ()
      ensures State() == Delayed(false, 0, false)
    {
      prev, expire, latch := false, 0, false;
    }

    /** delay_rising. */
    method Rising(cond: bool, now: s32, ticks: s32) returns (out: bool)
      modifies this
      ensures State() == RisingStep(old(State()), cond, now, ticks)
      ensures out == latch
    {
      var edge := !prev && cond;
      prev := cond;
      if edge {
        expire := Wrap(now + Clamp(ticks));
      }
      if cond && !latch && Wrap(now - expire) >= 0 {
        latch := true;
      }
      if !cond {
        latch := false;
      }
      return latch;
    }

    /** delay_falling. */
    method Falling(cond: bool, now: s32, ticks: s32) returns (out: bool)
      modifies this
      ensures State() == FallingStep(old(State()), cond, now, ticks)
      ensures out == latch
    {
      var edge := prev && !cond;
      prev := cond;
      if edge {
        expire := Wrap(now + Clamp(ticks));
      }
      if !cond && latch && Wrap(now - expire) >= 0 {
        latch := false;
      }
      if cond {
        latch := true;
      }
      return latch;
    }

    /** delay_rising_init and delay_falling_init: the first output is the
        startup condition. */
    method Init(cond: bool)
      modifies this
      ensures State() == old(State()).(prev := cond, latch := cond)
    {
      latch := cond;
      prev := latch;
    }
  }

  /** delay_stable_s32_state and delay_stable_f32_state, over the type of
      the watched value. */
  datatype Stable<T> = Stable(prev: T, expire: s32, stable: bool)

  /** delay_stable_{s32,f32}, with `changed` the code's change test: a change
      records the value, restarts the delay and reports unstable even with a
      zero delay; without a change a stable value stays stable and an
      unstable one becomes stable once the delay has expired. */
  function StableStep<T>(s: Stable<T>, changed: bool, arg: T, now: s32, ticks: s32): (r: Stable<T>)
    ensures changed ==> r == Stable(arg, Arm(now, Clamp(ticks)), false)
    ensures !changed ==> r.prev == s.prev && r.expire == s.expire
    ensures !changed ==> (r.stable <==> s.stable || Expired(now, s.expire))
  {
    if changed then Stable(arg, Arm(now, Clamp(ticks)), false)
    else if s.stable then s
    else if Expired(now, s.expire) then s.(stable := true)
    else s
  }

  /** delay_stable_s32's change test. */
  function ChangedS32(prev: s32, arg: s32): bool
  {
    prev != arg
  }

  /** delay_stable_f32's change test: a move of more than `delta`. */
  function ChangedF32(prev: real, arg: real, delta: real): bool
  {
    (if prev - arg < 0.0 then arg - prev else prev - arg) > delta
  }

  /** The stability delay: after a change at `start`, an unchanged value e
      ticks later is reported stable iff e reaches the clamped delay; and a
      value reported stable stays stable while it does not change. */
  lemma {:induction false} StableDelay<T>(s: Stable<T>, arg: T, start: s32, ticks: s32, e: int, later: s32)
    requires 0 <= e <= S32_MAX
    ensures StableStep(StableStep(s, true, arg, start, ticks), false, arg, Wrap(start + e), ticks).stable <==>
              e >= Clamp(ticks)
    ensures s.stable ==> StableStep(s, false, arg, later, ticks) == s
  {
    ExpiredAfter(start, Clamp(ticks), e);
  }

  /** delay_stable_s32_state. */
  class StableS32 {
    var prev: s32
    var expire: s32
    var stable: bool

    function State(): Stable<s32>
      reads this
    {
      Stable(prev, expire, stable)
    }

    constructor ()
      ensures State() == Stable(0, 0, false)
    {
      prev, expire, stable := 0, 0, false;
    }

    /** delay_stable_s32. */
    method Update(arg: s32, now: s32, ticks: s32) returns (out: bool)
      modifies this
      ensures State() == StableStep(old(State()), ChangedS32(old(prev), arg), arg, now, ticks)
      ensures out == stable
    {
      if prev != arg {
        prev := arg;
        expire := Wrap(now + Clamp(ticks));
        stable := false;
      } else if stable {
        return true;
      } else if Wrap(now - expire) >= 0 {
        stable := true;
      }
      return stable;
    }

    /** delay_stable_s32_init: the value starts out stable. */
    method Init(arg: s32)
      modifies this
      ensures State() == old(State()).(prev := arg, stable := true)
    {
      prev := arg;
      stable := true;
    }
  }

  /** delay_stable_f32_state, over reals. */
  class StableF32 {
    var prev: real
    var expire: s32
    var stable: bool

    function State(): Stable<real>
      reads this
    {
      Stable(prev, expire, stable)
    }

    constructor ()
      ensures State() == Stable(0.0, 0, false)
    {
      prev, expire, stable := 0.0, 0, false;
    }

    /** delay_stable_f32. */
    method Update(arg: real, delta: real, now: s32, ticks: s32) returns (out: bool)
      modifies this
      ensures State() == StableStep(old(State()), ChangedF32(old(prev), arg, delta), arg, now, ticks)
      ensures out == stable
    {
      var diff := prev - arg;
      if (if diff < 0.0 then -diff else diff) > delta {
        prev := arg;
        expire := Wrap(now + Clamp(ticks));
        stable := false;
      } else if stable {
        return true;
      } else if Wrap(now - expire) >= 0 {
        stable := true;
      }
      return stable;
    }

    /** delay_stable_f32_init: the value starts out stable. */
    method Init(arg: real)
      modifies this
      ensures State() == old(State()).(prev := arg, stable := true)
    {
      prev := arg;
      stable := true;
    }
  }

  /** SCALE: the time stamp given to the seeded first sample. */
  const SCALE: u32 := 10000000

  /** struct sig: a sample and its time stamp. */
  datatype Sig = Sig(v: real, t: u32)

  /** The line lengths of delay_signal{15,31,63,127,255,511,1023}_f32_state. */
  predicate LineLength(n: nat)
  {
    n == 16 || n == 32 || n == 64 || n == 128 || n == 256 || n == 512 || n == 1024
  }

  /** delay_signal*_f32_state of the 01.04.00.0087 header: a ring of samples
      with head and tail indices. */
  class SignalLine {
    var head: u32
    var tail: u32
    const line: array<Sig>

    /** Zero-initialised static storage of one of the seven sizes. */
    constructor (n: nat)
      requires LineLength(n)
      ensures line.Length == n && fresh(line)
      ensures head == 0 && tail == 0
      ensures forall i :: 0 <= i < n ==> line[i] == Sig(0.0, 0)
    {
      head, tail := 0, 0;
      line := new Sig[n](_ => Sig(0.0, 0));
    }

    /** delay_signal*_f32_init: the line is seeded with one sample, `arg` at
        time SCALE, and the head moved past it; the tail and the rest of the
        line are left as they were. */
    method Init(arg: real)
      requires line.Length >= 1
      modifies this, line
      ensures line[0] == Sig(arg, SCALE) && head == 1
      ensures tail == old(tail)
      ensures forall i :: 1 <= i < line.Length ==> line[i] == old(line[i])
    {
      line[0] := Sig(arg, SCALE);
      head := 1;
    }
  }

  /** delay_signal15_f32_state of the 01.04.00.0017 header: sixteen samples,
      the delay and an index. */
  class Signal15 {
    const line: array<real>
    var delay: real
    var idx: u32

    constructor ()
      ensures line.Length == 16 && fresh(line)
      ensures forall i :: 0 <= i < 16 ==> line[i] == 0.0
      ensures delay == 0.0 && idx == 0
    {
      line := new real[16](_ => 0.0);
      delay, idx := 0.0, 0;
    }

    /** delay_signal15_f32_init: only the first sample is written. */
    method Init(arg: real)
      requires line.Length == 16
      modifies line
      ensures line[0] == arg
      ensures forall i :: 1 <= i < 16 ==> line[i] == old(line[i])
    {
      line[0] := arg;
    }
  }
}
