/** ecu/timer.h: a count-down timer held as the absolute tick at which it
    expires, with 0 standing for "not running". `now` is the s32 reading of
    ticks_u32() and `ticks` the duration `(s32)(timeout / tick_period_f32())`;
    the conversion of the remainder back to seconds is a multiplication by
    the tick period, modelled over `real`. */
module Timer {
  import opened Int32
  import opened Deadline

  /** One call of timer_remaining_f32 on the stored deadline: the new
      deadline and the remaining ticks. */
  datatype Reading = Reading(expire: s32, remaining: s32)

  /** The remaining-time rule: nothing when the timer is not running; the
      positive difference `expire - now` while it runs, leaving the deadline
      in place; otherwise the timer stops. */
  function RemainingStep(expire: s32, now: s32): (r: Reading)
    ensures expire == 0 ==> r == Reading(0, 0)
    ensures r.remaining > 0 <==> expire != 0 && Wrap(expire - now) > 0
    ensures r.remaining > 0 ==> r == Reading(expire, Wrap(expire - now))
    ensures r.remaining <= 0 ==> r == Reading(0, 0)
  {
    if expire == 0 then Reading(0, 0)
    else
      var remaining := Wrap(expire - now);
      if remaining > 0 then Reading(expire, remaining) else Reading(0, 0)
  }

  /** timer_f32_state. */
  class CountDown {
    var expire: s32

    /** Zero-initialised static storage: a timer that is not running. */
    constructor ()
      ensures expire == 0
    {
      expire := 0;
    }

    /** timer_set_f32: the deadline is `now + ticks`, without clamping. */
    method Set(now: s32, ticks: s32)
      modifies this
      ensures expire == Arm(now, ticks)
    {
      expire := Wrap(now + ticks);
    }

    /** timer_remaining_f32: the remaining time in seconds of `period` each
        tick; the timer is stopped once nothing remains. */
    method Remaining(now: s32, period: real) returns (seconds: real)
      modifies this
      ensures seconds == RemainingStep(old(expire), now).remaining as real * period
      ensures expire == RemainingStep(old(expire), now).expire
    {
      if expire == 0 {
        return 0.0;
      }
      var remaining := Wrap(expire - now);
      if remaining > 0 {
        return remaining as real * period;
      }
      expire := 0;
      return 0.0;
    }
  }

  /** A timer set for d ticks at `start` and read e ticks later: while e < d
      it reports d - e and keeps running; from e >= d on it reports nothing
      and is stopped, so every later reading reports nothing too. The
      deadline must not be the value 0, which the timer reserves for "not
      running" (see SentinelDeadline). */
  lemma {:induction false} CountsDown(start: s32, d: int, e: int)
    requires 0 <= d <= S32_MAX && 0 <= e <= S32_MAX
    requires Arm(start, d) != 0
    ensures e < d ==> RemainingStep(Arm(start, d), Wrap(start + e)) == Reading(Arm(start, d), d - e)
    ensures e >= d ==> RemainingStep(Arm(start, d), Wrap(start + e)) == Reading(0, 0)
  {
    var expire := Arm(start, d);
    var now := Wrap(start + e);
    ExpiredAfter(start, d, e);
    assert (expire - now - (d - e)) % TWO_32 == 0 by {
      var a := (start + e - now) / TWO_32;
      var b := (start + d - expire) / TWO_32;
      assert expire - now - (d - e) == (a - b) * TWO_32;
    }
    WrapCongruent(expire - now, d - e);
  }

  /** A stopped timer stays stopped. */
  lemma StoppedStays(now: s32, later: s32)
    ensures RemainingStep(RemainingStep(0, now).expire, later) == Reading(0, 0)
  {
  }

  /** A deadline that happens to be the tick value 0 reads as "not running":
      armed at tick -100 for 100 ticks, the timer reports nothing although
      all 100 ticks remain. */
  lemma SentinelDeadline()
    ensures Arm(-100, 100) == 0
    ensures RemainingStep(Arm(-100, 100), -100) == Reading(0, 0)
  {
  }
}
