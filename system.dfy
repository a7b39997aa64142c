/** ecu/system.h: the system tick counter and the tick arithmetic built on
    it. Reading the PowerPC time base is hardware access, so the register
    values are parameters: a sequence of register samples for the retry loop
    of `ticks_u32`, and `now` (an already composed tick value) elsewhere. */
module SystemTicks {
  import opened Int32

  /** SYS_TICK_SHIFT: one system tick is 2^8 time-base increments. */
  const TICK_SHIFT: bv32 := 8

  /** One reading of the time base as `ticks_u32` performs it: upper half,
      lower half, upper half again. */
  datatype Sample = Sample(hi: bv32, lo: bv32, hi2: bv32)

  /** The tick value formed from the two halves of the 64-bit time base:
      `(tbhi << (32 - SYS_TICK_SHIFT)) | (tblo >> SYS_TICK_SHIFT)`, which is
      bits 8 to 39 of the time base. */
  function Compose(hi: bv32, lo: bv32): (t: bv32)
    ensures t as bv64 == ((((hi as bv64) << 32) | (lo as bv64)) >> 8) & 0xFFFF_FFFF
  {
    (hi << (32 - TICK_SHIFT)) | (lo >> TICK_SHIFT)
  }

  /** A sample is used only when the upper half did not change while the
      lower half was read. */
  predicate Consistent(s: Sample)
  {
    s.hi == s.hi2
  }

  /** ticks_u32: the retry loop over successive samples of the time base.
      It stops at the first consistent sample and composes the tick value
      from it. The loop terminates on the hardware because the upper half
      changes only once every 2^32 increments of the lower half; here that
      is the requirement that some sample is consistent. */
  method ReadTicks(samples: seq<Sample>) returns (t: bv32, used: nat)
    requires exists i :: 0 <= i < |samples| && Consistent(samples[i])
    ensures used < |samples| && Consistent(samples[used])
    ensures forall i :: 0 <= i < used ==> !Consistent(samples[i])
    ensures t == Compose(samples[used].hi, samples[used].lo)
  {
    used := 0;
    while !Consistent(samples[used])
      invariant 0 <= used < |samples|
      invariant forall i :: 0 <= i < used ==> !Consistent(samples[i])
      invariant exists i :: used <= i < |samples| && Consistent(samples[i])
      decreases |samples| - used
    {
      used := used + 1;
    }
    t := Compose(samples[used].hi, samples[used].lo);
  }

  /** ticks_between_u32(b, e): the u32 difference `e - b` read as s32, or
      0x7fffffff when that is negative (the end lies before the beginning,
      or more than 2^31 ticks after it). */
  function TicksBetween(b: u32, e: u32): (r: u32)
    ensures 0 <= r <= S32_MAX
    ensures r == S32_MAX || (e - b - r) % TWO_32 == 0
  {
    var elapsed := Wrap(e - b);
    if elapsed < 0 then S32_MAX else elapsed
  }

  /** ticks_since_u32(prev): ticks_between_u32 up to the current tick count
      `now`. */
  function TicksSince(prev: u32, now: u32): (r: u32)
    ensures 0 <= r <= S32_MAX
    ensures r == S32_MAX || (now - prev - r) % TWO_32 == 0
  {
    TicksBetween(prev, now)
  }

  /** ticks_remaining_u32(ticks, limit): the u32 difference `limit - ticks`
      read as s32, or 0 when that is negative. */
  function TicksRemaining(ticks: u32, limit: u32): (r: u32)
    ensures 0 <= r <= S32_MAX
    ensures r == 0 || (limit - ticks - r) % TWO_32 == 0
  {
    var delta := Wrap(limit - ticks);
    if delta < 0 then 0 else delta
  }

  /** hr_ticks_u32: the lower time-base register, with 0 replaced by 1 so
      that 0 can mean "no previous reading". */
  function HrTicks(tblo: u32): (r: u32)
    ensures r != 0
    ensures tblo != 0 ==> r == tblo
  {
    if tblo != 0 then tblo else 1
  }

  /** hr_ticks_since_u32(prev) with `now` the hr_ticks_u32 reading:
      0x7fffffff when there was no previous reading (`prev == 0`) or the
      difference is negative as s32. */
  function HrTicksSince(prev: u32, now: u32): (r: u32)
    ensures 0 <= r <= S32_MAX
    ensures prev == 0 ==> r == S32_MAX
  {
    var elapsed := Wrap(now - prev);
    if prev == 0 || elapsed < 0 then S32_MAX else elapsed
  }

  /** The elapsed ticks that elapsed_time_f32 multiplies by the tick period:
      the s32 difference `now - prev`, saturated to 0x7fffffff when it is
      negative. */
  function ElapsedTicks(prev: s32, now: s32): (r: s32)
    ensures 0 <= r <= S32_MAX
  {
    var elapsed := Wrap(now - prev);
    if elapsed < 0 then S32_MAX else elapsed
  }

  /** elapsed_time_f32_state: the tick count at the previous call. */
  class ElapsedTime {
    var prev: s32

    /** Zero-initialised static storage. */
    constructor ()
      ensures prev == 0
    {
      prev := 0;
    }

    /** elapsed_time_f32_init: remember the current tick count. */
    method Init(now: s32)
      modifies this
      ensures prev == now
    {
      prev := now;
    }

    /** elapsed_time_f32: the time since the previous call, in seconds of
        `period` each tick, and the current tick count remembered for the
        next call. */
    method Elapsed(now: s32, period: real) returns (seconds: real)
      requires period > 0.0
      modifies this
      ensures prev == now
      ensures seconds == ElapsedTicks(old(prev), now) as real * period
      ensures 0.0 <= seconds
    {
      var elapsed := Wrap(now - prev);
      prev := now;
      if elapsed < 0 {
        elapsed := S32_MAX;
      }
      seconds := elapsed as real * period;
    }
  }

  /** A difference congruent to k with 0 <= k < 2^31 reads as k. */
  lemma WrapSmall(x: int, k: int)
    requires 0 <= k <= S32_MAX && (x - k) % TWO_32 == 0
    ensures Wrap(x) == k
  {
    WrapCongruent(x, k);
  }

  /** Inverse of tick addition: k ticks after `b` (for k below 2^31) are k
      ticks between. */
  lemma {:induction false} BetweenAfter(b: u32, k: int)
    requires 0 <= k <= S32_MAX
    ensures TicksBetween(b, WrapU(b + k)) == k
    ensures TicksSince(b, WrapU(b + k)) == k
  {
    var e := WrapU(b + k);
    assert (e - b - k) % TWO_32 == 0 by {
      var q := (b + k - e) / TWO_32;
      assert e - b - k == (-q) * TWO_32;
    }
    WrapSmall(e - b, k);
  }

  /** An end up to 2^31 ticks before the beginning saturates to 0x7fffffff. */
  lemma {:induction false} BetweenBefore(e: u32, k: int)
    requires 1 <= k <= TWO_31
    ensures TicksBetween(WrapU(e + k), e) == S32_MAX
  {
    var b := WrapU(e + k);
    assert (e - b - (-k)) % TWO_32 == 0 by {
      var q := (e + k - b) / TWO_32;
      assert e - b + k == q * TWO_32;
    }
    WrapCongruent(e - b, -k);
  }

  /** Remaining ticks count down to the limit: k ticks before a limit (k
      below 2^31) k remain, and at or up to 2^31 ticks after it none do. */
  lemma {:induction false} RemainingBeforeAndAfter(t: u32, k: int, j: int)
    requires 0 <= k <= S32_MAX && 0 <= j <= TWO_31
    ensures TicksRemaining(t, WrapU(t + k)) == k
    ensures TicksRemaining(WrapU(t + j), t) == 0
  {
    var l := WrapU(t + k);
    assert (l - t - k) % TWO_32 == 0 by {
      var q := (t + k - l) / TWO_32;
      assert l - t - k == (-q) * TWO_32;
    }
    WrapSmall(l - t, k);
    var u := WrapU(t + j);
    assert (t - u - (-j)) % TWO_32 == 0 by {
      var q := (t + j - u) / TWO_32;
      assert t - u + j == q * TWO_32;
    }
    WrapCongruent(t - u, -j);
    if j == 0 {
      assert u == t;
    }
  }

  /** With a previous reading, hr_ticks_since_u32 is ticks_between_u32 of the
      high-resolution counter. */
  lemma HrSinceIsBetween(prev: u32, now: u32)
    requires prev != 0
    ensures HrTicksSince(prev, now) == TicksBetween(prev, now)
  {
  }

  /** elapsed_time_f32 measures the same interval as ticks_between_u32 on
      the u32 readings of the two tick counts. */
  lemma {:induction false} ElapsedIsBetween(prev: s32, now: s32)
    ensures ElapsedTicks(prev, now) == TicksBetween(Unsigned(prev), Unsigned(now))
  {
    var up: int, un: int := Unsigned(prev), Unsigned(now);
    assert (now - prev - (un - up)) % TWO_32 == 0 by {
      var a := (prev - up) / TWO_32;
      var c := (now - un) / TWO_32;
      assert now - prev - (un - up) == (c - a) * TWO_32;
    }
    WrapCongruent(now - prev, un - up);
  }
}
