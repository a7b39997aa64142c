/** ecu/debounce.h: debouncing a boolean input. These functions do not
    clamp the filter, so `ticks`, the duration
    `(s32)(filter / tick_period_f32())`, is used as it is; `now` is the s32
    reading of ticks_u32(). */
module Debounce {
  import opened Int32
  import opened Deadline

  /** debounce_stable_state: the debounced value and its deadline, 0 when no
      change is being timed. */
  datatype Held = Held(cond: bool, expire: s32)

  /** debounce_stable: an input equal to the output cancels any timing; a
      differing input starts the timer unless one runs, and is adopted once
      it has differed until the deadline, which then returns to 0. */
  function StableStep(s: Held, cond: bool, now: s32, ticks: s32): (r: Held)
    ensures cond == s.cond ==> r == Held(s.cond, 0)
    ensures r.cond != s.cond ==>
              r.cond == cond && r.expire == 0 &&
              Expired(now, if s.expire == 0 then Arm(now, ticks) else s.expire)
    ensures r.cond == s.cond && cond != s.cond ==>
              r.expire == (if s.expire == 0 then Arm(now, ticks) else s.expire) &&
              !Expired(now, r.expire)
  {
    if cond == s.cond then Held(s.cond, 0)
    else
      var expire := if s.expire == 0 then Arm(now, ticks) else s.expire;
      if Expired(now, expire) then Held(cond, 0) else Held(s.cond, expire)
  }

  /** The debounce delay: an input that differs from the output at `start`
      (with no change being timed) and still differs e ticks later has been
      adopted at the first call iff the duration is 0, and at the second iff
      e reaches it. The deadline must not be the value 0, which the state
      reserves for "not timing". */
  lemma {:induction false} StableDelay(c: bool, start: s32, ticks: s32, e: int)
    requires 0 <= ticks && 0 <= e <= S32_MAX
    requires Arm(start, ticks) != 0
    ensures StableStep(Held(c, 0), !c, start, ticks).cond == !c <==> ticks == 0
    ensures ticks > 0 ==>
              (StableStep(StableStep(Held(c, 0), !c, start, ticks), !c, Wrap(start + e), ticks).cond == !c <==>
               e >= ticks)
  {
    ArmedNow(start, ticks);
    ExpiredAfter(start, ticks, e);
  }

  /** A single sample equal to the output cancels a pending change: timing
      starts again from the next differing sample. */
  lemma StableRestart(s: Held, now: s32, later: s32, ticks: s32)
    ensures StableStep(s, s.cond, now, ticks).expire == 0
    ensures StableStep(StableStep(s, s.cond, now, ticks), !s.cond, later, ticks) ==
              StableStep(Held(s.cond, 0), !s.cond, later, ticks)
  {
  }

  /** debounce_stable_state. */
  class StableState {
    var cond: bool
    var expire: s32

    function State(): Held
      reads this
    {
      Held(cond, expire)
    }

    constructor ()
      ensures State() == Held(false, 0)
    {
      cond, expire := false, 0;
    }

    /** debounce_stable. */
    method Update(input: bool, now: s32, ticks: s32) returns (out: bool)
      modifies this
      ensures State() == StableStep(old(State()), input, now, ticks)
      ensures out == cond
    {
      if input == cond {
        expire := 0;
        return cond;
      }
      if expire == 0 {
        expire := Wrap(now + ticks);
      }
      if Wrap(now - expire) >= 0 {
        expire := 0;
        cond := input;
      }
      return cond;
    }

    /** debounce_stable_init: the output starts as `input`. */
    method Init(input: bool)
      modifies this
      ensures State() == old(State()).(cond := input)
    {
      cond := input;
    }
  }

  /** debounce_fast_state and debounce_verify_state. */
  datatype Timed = Timed(cond: bool, timing: bool, expire: s32)

  /** debounce_fast: while a lockout runs the input is ignored; otherwise a
      differing input is adopted at once and starts a lockout. */
  function FastStep(s: Timed, cond: bool, now: s32, ticks: s32): (r: Timed)
    ensures s.timing && !Expired(now, s.expire) ==> r == s
    ensures !s.timing || Expired(now, s.expire) ==> r.cond == cond
    ensures (!s.timing || Expired(now, s.expire)) && cond != s.cond ==>
              r.timing && r.expire == Arm(now, ticks)
    ensures (!s.timing || Expired(now, s.expire)) && cond == s.cond ==>
              !r.timing && r.expire == s.expire
  {
    if s.timing && !Expired(now, s.expire) then s
    else if cond != s.cond then Timed(cond, true, Arm(now, ticks))
    else s.(timing := false)
  }

  /** debounce_verify: a differing input starts the timer but does not
      change the output; when the timer expires the output takes the input
      of that moment, whatever happened in between. */
  function VerifyStep(s: Timed, cond: bool, now: s32, ticks: s32): (r: Timed)
    ensures !s.timing ==> r.cond == s.cond
    ensures !s.timing ==> (r.timing <==> cond != s.cond)
    ensures !s.timing && cond != s.cond ==> r.expire == Arm(now, ticks)
    ensures s.timing && Expired(now, s.expire) ==> r == Timed(cond, false, s.expire)
    ensures s.timing && !Expired(now, s.expire) ==> r == s
  {
    if s.timing then
      if Expired(now, s.expire) then Timed(cond, false, s.expire) else s
    else if cond != s.cond then Timed(s.cond, true, Arm(now, ticks))
    else s
  }

  /** The fast debounce's lockout: after adopting a change at `start`, every
      call before the duration has passed returns the adopted value,
      whatever the input; the first call at or after it follows the input
      again. */
  lemma {:induction false} FastLockout(c: bool, start: s32, ticks: s32, input: bool, e: int)
    requires 0 < ticks && 0 <= e <= S32_MAX
    ensures var s := FastStep(Timed(c, false, 0), !c, start, ticks);
      s.cond == !c &&
      (e < ticks ==> FastStep(s, input, Wrap(start + e), ticks) == s) &&
      (e >= ticks ==> FastStep(s, input, Wrap(start + e), ticks).cond == input)
  {
    ExpiredAfter(start, ticks, e);
  }

  /** The verify debounce's delay: a differing input at `start` leaves the
      output alone until the duration has passed; the call at or after it
      returns that call's input, which may be the original value. */
  lemma {:induction false} VerifyDelay(c: bool, start: s32, ticks: s32, input: bool, e: int)
    requires 0 < ticks && 0 <= e <= S32_MAX
    ensures var s := VerifyStep(Timed(c, false, 0), !c, start, ticks);
      s.cond == c &&
      (e < ticks ==> VerifyStep(s, input, Wrap(start + e), ticks).cond == c) &&
      (e >= ticks ==> VerifyStep(s, input, Wrap(start + e), ticks).cond == input)
  {
    ExpiredAfter(start, ticks, e);
  }

  /** debounce_fast_state and debounce_verify_state. */
  class TimedState {
    var cond: bool
    var timing: bool
    var expire: s32

    function State(): Timed
      reads this
    {
      Timed(cond, timing, expire)
    }

    constructor ()
      ensures State() == Timed(false, false, 0)
    {
      cond, timing, expire := false, false, 0;
    }

    /** debounce_fast. */
    method Fast(input: bool, now: s32, ticks: s32) returns (out: bool)
      modifies this
      ensures State() == FastStep(old(State()), input, now, ticks)
      ensures out == cond
    {
      if timing {
        if Wrap(now - expire) >= 0 {
          timing := false;
        } else {
          return cond;
        }
      }
      if input != cond {
        cond := input;
        expire := Wrap(now + ticks);
        timing := true;
      }
      return cond;
    }

    /** debounce_fast_init: the output starts as `input`, under a lockout of
        the filter duration. */
    method FastInit(input: bool, now: s32, ticks: s32)
      modifies this
      ensures State() == Timed(input, true, Arm(now, ticks))
    {
      cond := input;
      timing := true;
      expire := Wrap(now + ticks);
    }

    /** debounce_verify. */
    method Verify(input: bool, now: s32, ticks: s32) returns (out: bool)
      modifies this
      ensures State() == VerifyStep(old(State()), input, now, ticks)
      ensures out == cond
    {
      if timing {
        if Wrap(now - expire) >= 0 {
          cond := input;
          timing := false;
        }
        return cond;
      }
      if input != cond {
        expire := Wrap(now + ticks);
        timing := true;
      }
      return cond;
    }

    /** debounce_verify_init: the output starts as `input`. */
    method VerifyInit(input: bool)
      modifies this
      ensures State() == old(State()).(cond := input)
    {
      cond := input;
    }
  }
}
