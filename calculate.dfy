/** ecu/calculate.h: latching comparisons with a transition delay, a
    stability detector, and the s32 arithmetic helpers.

    The hysteresis, between and beyond functions (s32 and f32 alike) keep the
    same state, `{latch, timing, expire}`, and differ only in the comparison
    they make, so each is modelled by one step function over the outcome of
    its comparisons; the s32 and f32 entry points compute those outcomes over
    `s32` and over `real`. `now` is the s32 reading of ticks_u32() and
    `ticks` is `(s32)(filter / tick_period_f32())` of the unclamped filter,
    so the code's `if (filter < 0) filter = 0` is `Clamp(ticks)`. */
module Calculate {
  import opened Int32
  import opened Deadline

  /** The value of a latching state struct. */
  datatype Latch = Latch(latch: bool, timing: bool, expire: s32)

  /** The shared "process time" block: start the timer unless it is already
      running, and on expiry take the target value and stop timing. */
  function Approach(s: Latch, target: bool, now: s32, ticks: s32): (r: Latch)
    ensures s.timing ==> r.expire == s.expire
    ensures !s.timing ==> r.expire == Arm(now, Clamp(ticks))
    ensures r.latch == (if Expired(now, r.expire) then target else s.latch)
    ensures r.timing <==> !Expired(now, r.expire)
  {
    var armed := if s.timing then s else s.(expire := Arm(now, Clamp(ticks)), timing := true);
    if Expired(now, armed.expire) then armed.(latch := target, timing := false) else armed
  }

  /** calculate_hysteresis_{s32,f32}: `high` is `arg >= high`, `low` is
      `arg <= low` (tested only when `high` fails). Between the thresholds the
      timer stops and the latch holds; the latch rises only at or above
      `high` once the timer has expired and falls only at or below `low`
      likewise; a running timer's deadline is never moved. */
  function HysteresisStep(s: Latch, high: bool, low: bool, now: s32, ticks: s32): (r: Latch)
    ensures !high && !low ==> r == s.(timing := false)
    ensures high && s.latch ==> r == s.(timing := false)
    ensures !high && low && !s.latch ==> r == s.(timing := false)
    ensures r.latch && !s.latch ==> high && Expired(now, r.expire) && !r.timing
    ensures !r.latch && s.latch ==> !high && low && Expired(now, r.expire) && !r.timing
    ensures r.timing ==> r.latch == s.latch && (if s.latch then !high && low else high)
    ensures s.timing ==> r.expire == s.expire
    ensures r.expire == s.expire || r.expire == Arm(now, Clamp(ticks))
  {
    if high && !s.latch then Approach(s, true, now, ticks)
    else if !high && low && s.latch then Approach(s, false, now, ticks)
    else s.(timing := false)
  }

  /** calculate_between_{s32,f32} with `cond` the in-range test, and
      calculate_beyond_f32 with `cond` the out-of-range test: while `cond`
      fails the latch and timer are cleared at once; while it holds the latch
      rises once the timer expires, and a set latch is left alone. */
  function RangeStep(s: Latch, cond: bool, now: s32, ticks: s32): (r: Latch)
    ensures !cond ==> r == Latch(false, false, s.expire)
    ensures cond && s.latch ==> r == s
    ensures r.latch && !s.latch ==> cond && Expired(now, r.expire) && !r.timing
    ensures r.timing ==> cond
    ensures s.timing ==> r.expire == s.expire
    ensures r.expire == s.expire || r.expire == Arm(now, Clamp(ticks))
  {
    if !cond then Latch(false, false, s.expire)
    else if s.latch then s
    else Approach(s, true, now, ticks)
  }

  /** calculate_beyond_s32 as written: the start-timer block sets `timing`
      and clears it again on the next line, so the timer is re-armed on every
      call and `timing` is never left set. */
  function BeyondS32Step(s: Latch, outside: bool, now: s32, ticks: s32): (r: Latch)
    ensures !outside ==> r == Latch(false, false, s.expire)
    ensures outside && s.latch ==> r == s
    ensures !s.timing ==> !r.timing
    ensures outside && !s.latch && !s.timing ==>
              r.expire == Arm(now, Clamp(ticks)) && (r.latch <==> Expired(now, r.expire))
  {
    if !outside then Latch(false, false, s.expire)
    else if s.latch then s
    else
      var armed := if s.timing then s else s.(expire := Arm(now, Clamp(ticks)), timing := false);
      if Expired(now, armed.expire) then armed.(latch := true, timing := false) else armed
  }

  /** The state struct shared by the hysteresis, between and beyond
      functions. */
  class LatchState {
    var latch: bool
    var timing: bool
    var expire: s32

    function State(): Latch
      reads this
    {
      Latch(latch, timing, expire)
    }

    /** Zero-initialised static storage. */
    constructor ()
      ensures State() == Latch(false, false, 0)
    {
      latch, timing, expire := false, false, 0;
    }

    /** The "process time" block, as the code runs it. */
    method ProcessTime(target: bool, now: s32, ticks: s32)
      modifies this
      ensures State() == Approach(old(State()), target, now, ticks)
    {
      if !timing {
        expire := Wrap(now + Clamp(ticks));
        timing := true;
      }
      if Wrap(now - expire) >= 0 {
        latch := target;
        timing := false;
      }
    }

    method Hysteresis(high: bool, low: bool, now: s32, ticks: s32) returns (out: bool)
      modifies this
      ensures State() == HysteresisStep(old(State()), high, low, now, ticks)
      ensures out == latch
    {
      if high {
        if !latch {
          ProcessTime(true, now, ticks);
          return latch;
        }
      } else if low {
        if latch {
          ProcessTime(false, now, ticks);
          return latch;
        }
      }
      timing := false;
      return latch;
    }

    /** calculate_hysteresis_s32. */
    method HysteresisS32(arg: s32, low: s32, high: s32, now: s32, ticks: s32) returns (out: bool)
      modifies this
      ensures State() == HysteresisStep(old(State()), arg >= high, arg <= low, now, ticks)
      ensures out == latch
    {
      out := Hysteresis(arg >= high, arg <= low, now, ticks);
    }

    /** calculate_hysteresis_f32, over reals. */
    method HysteresisF32(arg: real, low: real, high: real, now: s32, ticks: s32) returns (out: bool)
      modifies this
      ensures State() == HysteresisStep(old(State()), arg >= high, arg <= low, now, ticks)
      ensures out == latch
    {
      out := Hysteresis(arg >= high, arg <= low, now, ticks);
    }

    /** calculate_hysteresis_s32_init: the latch starts as `arg >= high`;
        nothing else is written. */
    method HysteresisS32Init(arg: s32, low: s32, high: s32)
      modifies this
      ensures State() == old(State()).(latch := arg >= high)
    {
      latch := arg >= high;
    }

    /** calculate_hysteresis_f32_init, over reals. */
    method HysteresisF32Init(arg: real, low: real, high: real)
      modifies this
      ensures State() == old(State()).(latch := arg >= high)
    {
      latch := arg >= high;
    }

    method Range(cond: bool, now: s32, ticks: s32) returns (out: bool)
      modifies this
      ensures State() == RangeStep(old(State()), cond, now, ticks)
      ensures out == latch
    {
      if cond {
        if !latch {
          ProcessTime(true, now, ticks);
        }
      } else {
        latch := false;
        timing := false;
      }
      return latch;
    }

    /** calculate_between_s32. */
    method BetweenS32(arg: s32, min: s32, max: s32, now: s32, ticks: s32) returns (out: bool)
      modifies this
      ensures State() == RangeStep(old(State()), min <= arg <= max, now, ticks)
      ensures out == latch
    {
      out := Range(arg >= min && arg <= max, now, ticks);
    }

    /** calculate_between_f32, over reals. */
    method BetweenF32(arg: real, min: real, max: real, now: s32, ticks: s32) returns (out: bool)
      modifies this
      ensures State() == RangeStep(old(State()), min <= arg <= max, now, ticks)
      ensures out == latch
    {
      out := Range(arg >= min && arg <= max, now, ticks);
    }

    /** calculate_between_s32_init: the latch starts as the in-range test;
        nothing else is written. */
    method BetweenS32Init(arg: s32, min: s32, max: s32)
      modifies this
      ensures State() == old(State()).(latch := min <= arg <= max)
    {
      latch := arg >= min && arg <= max;
    }

    /** calculate_between_f32_init, over reals. */
    method BetweenF32Init(arg: real, min: real, max: real)
      modifies this
      ensures State() == old(State()).(latch := min <= arg <= max)
    {
      latch := arg >= min && arg <= max;
    }

    /** calculate_beyond_s32_init: the latch starts as the out-of-range test;
        nothing else is written. */
    method BeyondS32Init(arg: s32, min: s32, max: s32)
      modifies this
      ensures State() == old(State()).(latch := arg < min || arg > max)
    {
      latch := arg < min || arg > max;
    }

    /** calculate_beyond_f32_init, over reals. */
    method BeyondF32Init(arg: real, min: real, max: real)
      modifies this
      ensures State() == old(State()).(latch := arg < min || arg > max)
    {
      latch := arg < min || arg > max;
    }

    /** calculate_beyond_s32, as written. */
    method BeyondS32(arg: s32, min: s32, max: s32, now: s32, ticks: s32) returns (out: bool)
      modifies this
      ensures State() == BeyondS32Step(old(State()), arg < min || arg > max, now, ticks)
      ensures out == latch
    {
      if arg < min || arg > max {
        if !latch {
          if !timing {
            expire := Wrap(now + Clamp(ticks));
            timing := true;
            timing := false;
          }
          if Wrap(now - expire) >= 0 {
            latch := true;
            timing := false;
          }
        }
      } else {
        latch := false;
        timing := false;
      }
      return latch;
    }

    /** calculate_beyond_f32, over reals. */
    method BeyondF32(arg: real, min: real, max: real, now: s32, ticks: s32) returns (out: bool)
      modifies this
      ensures State() == RangeStep(old(State()), arg < min || arg > max, now, ticks)
      ensures out == latch
    {
      out := Range(arg < min || arg > max, now, ticks);
    }
  }

  /** The calls of calculate_hysteresis while the argument stays at or above
      `high`, at tick offsets `offsets` from the first call. */
  function HoldHigh(s: Latch, start: s32, ticks: s32, offsets: seq<int>): Latch
    decreases |offsets|
  {
    if offsets == [] then s
    else
      var last := |offsets| - 1;
      HysteresisStep(HoldHigh(s, start, ticks, offsets[..last]), true, false, Wrap(start + offsets[last]), ticks)
  }

  /** The transition delay: from an unlatched, idle state, holding the
      argument at or above `high` latches exactly at the first call made at
      least the (clamped) filter duration after the first call, and never
      earlier. Before that the timer runs with the deadline set by the first
      call. */
  lemma {:induction false} HysteresisDelay(s: Latch, start: s32, ticks: s32, offsets: seq<int>)
    requires !s.latch && !s.timing
    requires forall i :: 0 <= i < |offsets| ==> 0 <= offsets[i] <= S32_MAX
    requires |offsets| > 0 ==> offsets[0] == 0
    ensures HoldHigh(s, start, ticks, offsets).latch <==>
              exists i :: 0 <= i < |offsets| && offsets[i] >= Clamp(ticks)
    ensures |offsets| > 0 && !HoldHigh(s, start, ticks, offsets).latch ==>
              HoldHigh(s, start, ticks, offsets).timing &&
              HoldHigh(s, start, ticks, offsets).expire == Arm(start, Clamp(ticks))
    decreases |offsets|
  {
    var d := Clamp(ticks);
    if offsets == [] {
    } else if |offsets| == 1 {
      assert HoldHigh(s, start, ticks, offsets) == HysteresisStep(s, true, false, Wrap(start + 0), ticks);
      HighFirst(s, start, ticks);
    } else {
      var last := |offsets| - 1;
      var prefix := offsets[..last];
      HysteresisDelay(s, start, ticks, prefix);
      var p := HoldHigh(s, start, ticks, prefix);
      var o := offsets[last];
      assert HoldHigh(s, start, ticks, offsets) == HysteresisStep(p, true, false, Wrap(start + o), ticks);
      HighNext(p, start, ticks, o);
      if p.latch {
        var i :| 0 <= i < |prefix| && prefix[i] >= d;
        assert offsets[i] >= d;
      } else if o < d {
        forall i | 0 <= i < |offsets|
          ensures offsets[i] < d
        {
          if i < last {
            assert offsets[i] == prefix[i];
          }
        }
      }
    }
  }

  /** The first call held high: it arms the timer at `start` and latches iff
      the duration is 0. */
  lemma HighFirst(s: Latch, start: s32, ticks: s32)
    requires !s.latch && !s.timing
    ensures var q := HysteresisStep(s, true, false, Wrap(start + 0), ticks);
      (q.latch <==> Clamp(ticks) == 0) &&
      (!q.latch ==> q.timing && q.expire == Arm(start, Clamp(ticks)))
  {
    assert Wrap(start + 0) == start;
    ArmedNow(start, Clamp(ticks));
  }

  /** A later call held high, o ticks after `start`: a latched state stays
      latched; a waiting one latches iff o reaches the duration. */
  lemma HighNext(p: Latch, start: s32, ticks: s32, o: int)
    requires 0 <= o <= S32_MAX
    requires !p.latch ==> p.timing && p.expire == Arm(start, Clamp(ticks))
    ensures var q := HysteresisStep(p, true, false, Wrap(start + o), ticks);
      (p.latch ==> q.latch) &&
      (!p.latch ==> (q.latch <==> o >= Clamp(ticks)) && (!q.latch ==> q.timing && q.expire == p.expire))
  {
    ExpiredAfter(start, Clamp(ticks), o);
  }

  /** The calls of calculate_hysteresis while the argument stays at or below
      `low` (and below `high`), at tick offsets `offsets` from the first
      call. */
  function HoldLow(s: Latch, start: s32, ticks: s32, offsets: seq<int>): Latch
    decreases |offsets|
  {
    if offsets == [] then s
    else
      var last := |offsets| - 1;
      HysteresisStep(HoldLow(s, start, ticks, offsets[..last]), false, true, Wrap(start + offsets[last]), ticks)
  }

  /** The falling transition delay, the mirror of HysteresisDelay: from a
      latched, idle state, holding the argument at or below `low` clears the
      latch exactly at the first call made at least the (clamped) filter
      duration after the first call, and never earlier. Before that the timer
      runs with the deadline set by the first call. */
  lemma {:induction false} HysteresisFallDelay(s: Latch, start: s32, ticks: s32, offsets: seq<int>)
    requires s.latch && !s.timing
    requires forall i :: 0 <= i < |offsets| ==> 0 <= offsets[i] <= S32_MAX
    requires |offsets| > 0 ==> offsets[0] == 0
    ensures !HoldLow(s, start, ticks, offsets).latch <==>
              exists i :: 0 <= i < |offsets| && offsets[i] >= Clamp(ticks)
    ensures |offsets| > 0 && HoldLow(s, start, ticks, offsets).latch ==>
              HoldLow(s, start, ticks, offsets).timing &&
              HoldLow(s, start, ticks, offsets).expire == Arm(start, Clamp(ticks))
    decreases |offsets|
  {
    var d := Clamp(ticks);
    if offsets == [] {
    } else if |offsets| == 1 {
      assert HoldLow(s, start, ticks, offsets) == HysteresisStep(s, false, true, Wrap(start + 0), ticks);
      LowFirst(s, start, ticks);
    } else {
      var last := |offsets| - 1;
      var prefix := offsets[..last];
      HysteresisFallDelay(s, start, ticks, prefix);
      var p := HoldLow(s, start, ticks, prefix);
      var o := offsets[last];
      assert HoldLow(s, start, ticks, offsets) == HysteresisStep(p, false, true, Wrap(start + o), ticks);
      LowNext(p, start, ticks, o);
      if !p.latch {
        var i :| 0 <= i < |prefix| && prefix[i] >= d;
        assert offsets[i] >= d;
      } else if o < d {
        forall i | 0 <= i < |offsets|
          ensures offsets[i] < d
        {
          if i < last {
            assert offsets[i] == prefix[i];
          }
        }
      }
    }
  }

  /** The first call held low: it arms the timer at `start` and clears the
      latch iff the duration is 0. */
  lemma LowFirst(s: Latch, start: s32, ticks: s32)
    requires s.latch && !s.timing
    ensures var q := HysteresisStep(s, false, true, Wrap(start + 0), ticks);
      (!q.latch <==> Clamp(ticks) == 0) &&
      (q.latch ==> q.timing && q.expire == Arm(start, Clamp(ticks)))
  {
    assert Wrap(start + 0) == start;
    ArmedNow(start, Clamp(ticks));
  }

  /** A later call held low, o ticks after `start`: a cleared latch stays
      cleared; a waiting one clears iff o reaches the duration. */
  lemma LowNext(p: Latch, start: s32, ticks: s32, o: int)
    requires 0 <= o <= S32_MAX
    requires p.latch ==> p.timing && p.expire == Arm(start, Clamp(ticks))
    ensures var q := HysteresisStep(p, false, true, Wrap(start + o), ticks);
      (!p.latch ==> !q.latch) &&
      (p.latch ==> (!q.latch <==> o >= Clamp(ticks)) && (q.latch ==> q.timing && q.expire == p.expire))
  {
    ExpiredAfter(start, Clamp(ticks), o);
  }

  /** The range latch (between, beyond_f32) waits for the filter duration: a
      first call with the condition holding arms the timer, and a later call
      e ticks on, with the condition still holding, has latched exactly when
      e reaches the clamped duration. */
  lemma {:induction false} RangeDelay(s: Latch, start: s32, ticks: s32, e: int)
    requires !s.latch && !s.timing
    requires 0 <= e <= S32_MAX
    ensures RangeStep(RangeStep(s, true, start, ticks), true, Wrap(start + e), ticks).latch <==>
              e >= Clamp(ticks)
  {
    var d := Clamp(ticks);
    ArmedNow(start, d);
    ExpiredAfter(start, d, e);
  }

  /** calculate_beyond_s32 as written never latches through a positive
      delay: from an unlatched idle state, every call out of range re-arms
      the timer at its own `now` and therefore finds it unexpired. */
  lemma {:induction false} BeyondS32NeverWaits(s: Latch, ticks: s32, times: seq<s32>)
    requires !s.latch && !s.timing
    requires Clamp(ticks) > 0
    ensures !BeyondS32Run(s, ticks, times).latch && !BeyondS32Run(s, ticks, times).timing
    decreases |times|
  {
    if times != [] {
      var last := |times| - 1;
      BeyondS32NeverWaits(s, ticks, times[..last]);
      ArmedNow(times[last], Clamp(ticks));
    }
  }

  /** The calls of calculate_beyond_s32 while the argument stays out of
      range, at ticks `times`. */
  function BeyondS32Run(s: Latch, ticks: s32, times: seq<s32>): Latch
    decreases |times|
  {
    if times == [] then s
    else
      var last := |times| - 1;
      BeyondS32Step(BeyondS32Run(s, ticks, times[..last]), true, times[last], ticks)
  }

  /** The discrepancy on a concrete input: with a 10-tick filter and the
      argument out of range at ticks 0 and 10, beyond_f32's rule has latched
      at the second call and beyond_s32's has not. */
  lemma BeyondS32Discrepancy()
    ensures RangeStep(RangeStep(Latch(false, false, 0), true, 0, 10), true, 10, 10).latch
    ensures !BeyondS32Step(BeyondS32Step(Latch(false, false, 0), true, 0, 10), true, 10, 10).latch
  {
  }

  /** The value of calculate_stable_s32_state. */
  datatype Stable = Stable(timing: bool, expire: s32, prev: s32)

  /** calculate_stable_s32: any change of the argument restarts the timer;
      the argument is stable (the result is `!timing`) once the timer since
      the last change has expired. */
  function StableStep(s: Stable, arg: s32, now: s32, ticks: s32): (r: Stable)
    ensures r.prev == arg
    ensures arg != s.prev ==> r.expire == Arm(now, Clamp(ticks)) && (r.timing <==> Clamp(ticks) != 0)
    ensures arg == s.prev ==> r.expire == s.expire && (r.timing <==> s.timing && !Expired(now, s.expire))
  {
    var changed := if arg != s.prev then Stable(true, Arm(now, Clamp(ticks)), arg) else s;
    ArmedNow(now, Clamp(ticks));
    if changed.timing && Expired(now, changed.expire) then changed.(timing := false) else changed
  }

  /** After a change at `start`, an unchanged argument e ticks later is
      reported stable exactly when e reaches the clamped filter duration. */
  lemma {:induction false} StableDelay(s: Stable, arg: s32, start: s32, ticks: s32, e: int)
    requires arg != s.prev
    requires 0 <= e <= S32_MAX
    ensures !StableStep(StableStep(s, arg, start, ticks), arg, Wrap(start + e), ticks).timing <==>
              e >= Clamp(ticks)
  {
    var d := Clamp(ticks);
    var s1 := StableStep(s, arg, start, ticks);
    ExpiredAfter(start, d, e);
    if d == 0 {
      assert !s1.timing;
    }
  }

  /** calculate_stable_s32_state. */
  class StableS32 {
    var timing: bool
    var expire: s32
    var prev: s32

    function State(): Stable
      reads this
    {
      Stable(timing, expire, prev)
    }

    /** Zero-initialised static storage. */
    constructor ()
      ensures State() == Stable(false, 0, 0)
    {
      timing, expire, prev := false, 0, 0;
    }

    /** calculate_stable_s32. */
    method Update(arg: s32, now: s32, ticks: s32) returns (stable: bool)
      modifies this
      ensures State() == StableStep(old(State()), arg, now, ticks)
      ensures stable == !timing
    {
      var change := arg != prev;
      prev := arg;
      if change {
        expire := Wrap(now + Clamp(ticks));
        timing := true;
      }
      if timing && Wrap(now - expire) >= 0 {
        timing := false;
      }
      return !timing;
    }

    /** calculate_stable_s32_init: timing from `now` with the filter
        duration, which this function does not clamp. */
    method Init(arg: s32, now: s32, ticks: s32)
      modifies this
      ensures State() == Stable(true, Arm(now, ticks), arg)
    {
      timing := true;
      expire := Wrap(now + ticks);
      prev := arg;
    }
  }

  /** C's `/` on int: the quotient truncated toward zero. */
  function Quot(a: int, b: int): (q: int)
    requires b != 0
    ensures b > 0 && a >= 0 ==> q == a / b
  {
    var m := (if a < 0 then -a else a) / (if b < 0 then -b else b);
    if (a < 0) == (b < 0) then m else -m
  }

  /** calculate_min_s32: the smaller argument. */
  function MinS32(a: s32, b: s32): (r: s32)
    ensures r <= a && r <= b
    ensures r == a || r == b
  {
    if a < b then a else b
  }

  /** calculate_max_s32: the larger argument. */
  function MaxS32(a: s32, b: s32): (r: s32)
    ensures r >= a && r >= b
    ensures r == a || r == b
  {
    if a > b then a else b
  }

  /** calculate_average_s32: `(a + b) / 2` with the s32 sum wrapping and the
      division truncating toward zero. Without overflow the result lies
      between the arguments and is the exact mean rounded toward zero. */
  function AverageS32(a: s32, b: s32): (r: s32)
    ensures -TWO_31 <= a + b < TWO_31 ==> MinS32(a, b) <= r <= MaxS32(a, b)
    ensures -TWO_31 <= a + b < TWO_31 && a + b >= 0 ==> 0 <= (a + b) - 2 * r <= 1
    ensures -TWO_31 <= a + b < TWO_31 && a + b < 0 ==> -1 <= (a + b) - 2 * r <= 0
  {
    Quot(Wrap(a + b), 2)
  }

  /** The sum wraps: whenever `a + b` overflows s32 the average lies outside
      [a, b], below both arguments when they are large and positive and
      above both when they are large and negative. */
  lemma AverageOverflow(a: s32, b: s32)
    requires !(-TWO_31 <= a + b < TWO_31)
    ensures AverageS32(a, b) < MinS32(a, b) || AverageS32(a, b) > MaxS32(a, b)
  {
    if a + b >= TWO_31 {
      WrapCongruent(a + b, a + b - TWO_32);
    } else {
      WrapCongruent(a + b, a + b + TWO_32);
    }
  }

  /** calculate_absolute_s32: `__builtin_abs`, whose result wraps for the
      most negative s32, which is its own absolute value. */
  function AbsoluteS32(arg: s32): (r: s32)
    ensures arg != -TWO_31 ==> r >= 0 && (r == arg || r == -arg)
    ensures arg == -TWO_31 ==> r == arg
  {
    if arg < 0 then Wrap(-(arg as int)) else arg
  }

  /** calculate_modulo_s32: C's `%`, the remainder of truncating division,
      defined for a non-zero divisor. Its magnitude is below the divisor's,
      its sign is the dividend's, and it differs from the dividend by a
      multiple of the divisor. */
  function ModuloS32(arg: s32, denom: s32): (r: int)
    requires denom != 0
    ensures -TWO_31 < r < TWO_31
    ensures Abs(r) < Abs(denom)
    ensures r == 0 || (r < 0 <==> arg < 0)
    ensures (arg - r) % denom == 0
  {
    var q := Quot(arg, denom);
    QuotRem(arg, denom);
    arg - q * denom
  }

  function Abs(x: int): nat
  {
    if x < 0 then -x else x
  }

  lemma {:induction false} QuotRem(a: int, b: int)
    requires b != 0
    ensures var r := a - Quot(a, b) * b;
      Abs(r) < Abs(b) && (r == 0 || (r < 0 <==> a < 0)) && (a - r) % b == 0
  {
    var m := Abs(a) / Abs(b);
    var k := Abs(a) % Abs(b);
    DivModParts(Abs(a), Abs(b));
    SignedProduct(m, Abs(b), a < 0, b < 0);
    MultipleMod(Quot(a, b), b);
  }

  /** |a| = m * |b| + k with 0 <= k < |b|. */
  lemma DivModParts(aa: nat, bb: nat)
    requires bb > 0
    ensures aa == (aa / bb) * bb + aa % bb && 0 <= aa % bb < bb
  {
  }

  /** The product of the signed quotient and the signed divisor. */
  lemma SignedProduct(m: int, bb: int, an: bool, bn: bool)
    ensures (if an == bn then m else -m) * (if bn then -bb else bb) == (if an then -(m * bb) else m * bb)
  {
  }

  lemma MultipleMod(q: int, b: int)
    requires b != 0
    ensures (q * b) % b == 0
  {
    var d, r := (q * b) / b, (q * b) % b;
    assert q * b == d * b + r && 0 <= r < Abs(b);
    var x := q - d;
    assert r == x * b by {
      assert q * b - d * b == (q - d) * b;
    }
    if x != 0 {
      ProductAtLeast(x, b);
    }
  }

  /** A non-zero multiple of b is at least |b| in magnitude. */
  lemma ProductAtLeast(x: int, b: int)
    requires x != 0 && b != 0
    ensures Abs(x * b) >= Abs(b)
  {
    AbsMul(x, b);
    NatProductAtLeast(Abs(x), Abs(b));
  }

  lemma AbsMul(x: int, b: int)
    ensures Abs(x * b) == Abs(x) * Abs(b)
  {
    if x < 0 && b < 0 {
      assert x * b == (-x) * (-b);
    } else if x < 0 {
      assert x * b == -((-x) * b);
    } else if b < 0 {
      assert x * b == -(x * (-b));
    }
  }

  lemma NatProductAtLeast(u: nat, v: nat)
    requires u >= 1
    ensures u * v >= v
  {
    assert u * v == (u - 1) * v + v;
  }

  /** For a non-negative dividend and positive divisor C's `%` is the
      mathematical remainder; with a negative dividend it is not. */
  lemma ModuloSign(arg: s32, denom: s32)
    requires denom > 0
    ensures arg >= 0 ==> ModuloS32(arg, denom) == arg % denom
    ensures ModuloS32(-7, 3) == -1 && -7 % 3 == 2
  {
  }
}
