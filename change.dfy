/** ecu/change.h: change detectors on s32 values and on conditions.

    The threshold detectors report a rise (`up`) or fall (`down`) of at least
    `delta` from the extreme seen since the last report, or a move of at
    least `delta` away from the last reported value (`by`); the edge
    detectors report a rising (`to`), falling (`from`) or any (`either`)
    edge of a condition. The timed forms confirm the change over a filter
    duration before reporting it, once; the `immed` forms report at once.
    `now` is the s32 reading of ticks_u32() and `ticks` is
    `(s32)(filter / tick_period_f32())` of the unclamped filter. */
module Change {
  import opened Int32
  import opened Deadline
  import Calculate

  /** A detector's new state and whether this call reports a change. */
  datatype Report<S> = Report(state: S, fired: bool)

  /** The timer part of a timed detector. */
  datatype Confirm = Confirm(timing: bool, expire: s32)

  /** The confirmation block every timed detector runs while its condition
      holds: start the timer unless it is running, and report once it has
      expired, which stops it. */
  function ConfirmStep(t: Confirm, now: s32, ticks: s32): (r: Report<Confirm>)
    ensures t.timing ==> r.state.expire == t.expire
    ensures !t.timing ==> r.state.expire == Arm(now, Clamp(ticks))
    ensures r.fired <==> Expired(now, r.state.expire)
    ensures r.state.timing <==> !r.fired
  {
    var armed := if t.timing then t else Confirm(true, Arm(now, Clamp(ticks)));
    if Expired(now, armed.expire) then Report(armed.(timing := false), true)
    else Report(armed, false)
  }

  /** The s32 detectors raise a `delta` below 1 to 1. */
  function Delta(delta: s32): (d: s32)
    ensures d >= 1
    ensures delta >= 1 ==> d == delta
  {
    if delta < 1 then 1 else delta
  }

  /** change_up_s32_state, change_down_s32_state. */
  datatype Thresh = Thresh(thresh: s32, expire: s32, timing: bool)

  /** change_up_s32: at or above the threshold the rise is confirmed over the
      filter duration, then reported once with the threshold moved to
      `arg + delta`; below it the timer stops and the threshold ratchets down
      to `arg + delta` if that is lower. Sums wrap as s32. */
  function UpStep(s: Thresh, arg: s32, delta: s32, now: s32, ticks: s32): (r: Report<Thresh>)
    ensures r.fired ==> arg >= s.thresh && Expired(now, r.state.expire) && !r.state.timing &&
                        r.state.thresh == Wrap(arg + Delta(delta))
    ensures arg >= s.thresh && !r.fired ==> r.state.thresh == s.thresh && r.state.timing
    ensures arg < s.thresh ==> !r.fired && !r.state.timing && r.state.thresh <= s.thresh &&
                               r.state.thresh <= Wrap(arg + Delta(delta)) &&
                               (r.state.thresh == s.thresh || r.state.thresh == Wrap(arg + Delta(delta)))
    ensures s.timing ==> r.state.expire == s.expire
  {
    var next := Wrap(arg + Delta(delta));
    if arg >= s.thresh then
      var c := ConfirmStep(Confirm(s.timing, s.expire), now, ticks);
      Report(Thresh(if c.fired then next else s.thresh, c.state.expire, c.state.timing), c.fired)
    else
      Report(Thresh(if next < s.thresh then next else s.thresh, s.expire, false), false)
  }

  /** change_down_s32: the mirror image of change_up_s32, with `arg - delta`
      and the threshold ratcheting up. */
  function DownStep(s: Thresh, arg: s32, delta: s32, now: s32, ticks: s32): (r: Report<Thresh>)
    ensures r.fired ==> arg <= s.thresh && Expired(now, r.state.expire) && !r.state.timing &&
                        r.state.thresh == Wrap(arg - Delta(delta))
    ensures arg <= s.thresh && !r.fired ==> r.state.thresh == s.thresh && r.state.timing
    ensures arg > s.thresh ==> !r.fired && !r.state.timing && r.state.thresh >= s.thresh &&
                               r.state.thresh >= Wrap(arg - Delta(delta)) &&
                               (r.state.thresh == s.thresh || r.state.thresh == Wrap(arg - Delta(delta)))
    ensures s.timing ==> r.state.expire == s.expire
  {
    var next := Wrap(arg - Delta(delta));
    if arg <= s.thresh then
      var c := ConfirmStep(Confirm(s.timing, s.expire), now, ticks);
      Report(Thresh(if c.fired then next else s.thresh, c.state.expire, c.state.timing), c.fired)
    else
      Report(Thresh(if next > s.thresh then next else s.thresh, s.expire, false), false)
  }

  /** change_up_immed_s32: reports iff `arg` reaches the threshold; the new
      threshold is `arg + delta` after a report and otherwise the lower of
      the old one and `arg + delta`. */
  function UpImmedStep(thresh: s32, arg: s32, delta: s32): (r: Report<s32>)
    ensures r.fired <==> arg >= thresh
    ensures r.fired ==> r.state == Wrap(arg + Delta(delta))
    ensures !r.fired ==> r.state <= thresh && r.state <= Wrap(arg + Delta(delta)) &&
                         (r.state == thresh || r.state == Wrap(arg + Delta(delta)))
  {
    var next := Wrap(arg + Delta(delta));
    if arg >= thresh then Report(next, true)
    else Report(if next < thresh then next else thresh, false)
  }

  /** change_down_immed_s32: the mirror image of change_up_immed_s32. */
  function DownImmedStep(thresh: s32, arg: s32, delta: s32): (r: Report<s32>)
    ensures r.fired <==> arg <= thresh
    ensures r.fired ==> r.state == Wrap(arg - Delta(delta))
    ensures !r.fired ==> r.state >= thresh && r.state >= Wrap(arg - Delta(delta)) &&
                         (r.state == thresh || r.state == Wrap(arg - Delta(delta)))
  {
    var next := Wrap(arg - Delta(delta));
    if arg <= thresh then Report(next, true)
    else Report(if next > thresh then next else thresh, false)
  }

  /** The distance `__builtin_abs(arg - prev)` as the s32 arithmetic computes
      it. */
  function Distance(arg: s32, prev: s32): s32
  {
    Calculate.AbsoluteS32(Wrap(arg - prev))
  }

  /** change_by_s32_state. */
  datatype By = By(prev: s32, expire: s32, timing: bool)

  /** change_by_s32: a move of at least `delta` from the last reported value
      is confirmed over the filter duration and then reported, which makes
      `arg` the new reference; a smaller move stops the timer. */
  function ByStep(s: By, arg: s32, delta: s32, now: s32, ticks: s32): (r: Report<By>)
    ensures r.fired ==> Distance(arg, s.prev) >= Delta(delta) && Expired(now, r.state.expire) &&
                        r.state.prev == arg && !r.state.timing
    ensures !r.fired ==> r.state.prev == s.prev
    ensures Distance(arg, s.prev) < Delta(delta) ==> !r.fired && !r.state.timing && r.state.expire == s.expire
    ensures Distance(arg, s.prev) >= Delta(delta) && !r.fired ==> r.state.timing
    ensures s.timing ==> r.state.expire == s.expire
  {
    if Distance(arg, s.prev) >= Delta(delta) then
      var c := ConfirmStep(Confirm(s.timing, s.expire), now, ticks);
      Report(By(if c.fired then arg else s.prev, c.state.expire, c.state.timing), c.fired)
    else
      Report(s.(timing := false), false)
  }

  /** change_by_immed_s32: reports iff the distance from the last reported
      value reaches `delta`, and only then moves the reference. */
  function ByImmedStep(prev: s32, arg: s32, delta: s32): (r: Report<s32>)
    ensures r.fired <==> Distance(arg, prev) >= Delta(delta)
    ensures r.state == (if r.fired then arg else prev)
  {
    if Distance(arg, prev) >= Delta(delta) then Report(arg, true) else Report(prev, false)
  }

  /** Without s32 overflow the distance is the mathematical one. */
  lemma DistanceExact(arg: s32, prev: s32)
    requires -TWO_31 < arg - prev < TWO_31
    ensures Distance(arg, prev) == if arg >= prev then arg - prev else prev - arg
  {
  }

  /** With overflow it is not: a jump from -0x7fffffff to 0x7fffffff reads
      as a distance of 2. */
  lemma DistanceWraps()
    ensures Distance(S32_MAX, -S32_MAX) == 2
  {
    assert Wrap(S32_MAX - -S32_MAX) == -2 by {
      WrapCongruent(S32_MAX - -S32_MAX, -2);
    }
  }

  /** change_to_state, change_from_state, change_either_state. */
  datatype Edge = Edge(prev: bool, expire: s32, timing: bool)

  /** change_to: a rising edge starts the timer; while the condition stays
      true the report comes once, when the timer expires; a false condition
      stops the timer. */
  function ToStep(s: Edge, cond: bool, now: s32, ticks: s32): (r: Report<Edge>)
    ensures r.state.prev == cond
    ensures !s.prev && cond ==> r.state.expire == Arm(now, Clamp(ticks))
    ensures !(!s.prev && cond) ==> r.state.expire == s.expire
    ensures r.fired ==> cond && Expired(now, r.state.expire) && !r.state.timing
    ensures !cond ==> !r.fired && !r.state.timing
    ensures r.fired <==> cond && (s.timing || !s.prev) && Expired(now, r.state.expire)
  {
    var armed := if !s.prev && cond then Edge(cond, Arm(now, Clamp(ticks)), true) else s.(prev := cond);
    if cond && armed.timing && Expired(now, armed.expire) then Report(armed.(timing := false), true)
    else if !cond then Report(armed.(timing := false), false)
    else Report(armed, false)
  }

  /** change_from: the mirror image of change_to, for a falling edge. */
  function FromStep(s: Edge, cond: bool, now: s32, ticks: s32): (r: Report<Edge>)
    ensures r.state.prev == cond
    ensures s.prev && !cond ==> r.state.expire == Arm(now, Clamp(ticks))
    ensures !(s.prev && !cond) ==> r.state.expire == s.expire
    ensures r.fired ==> !cond && Expired(now, r.state.expire) && !r.state.timing
    ensures cond ==> !r.fired && !r.state.timing
    ensures r.fired <==> !cond && (s.timing || s.prev) && Expired(now, r.state.expire)
  {
    var armed := if s.prev && !cond then Edge(cond, Arm(now, Clamp(ticks)), true) else s.(prev := cond);
    if !cond && armed.timing && Expired(now, armed.expire) then Report(armed.(timing := false), true)
    else if cond then Report(armed.(timing := false), false)
    else Report(armed, false)
  }

  /** change_either: any edge starts the timer, and the report comes once,
      when it expires, whatever the condition is then. */
  function EitherStep(s: Edge, cond: bool, now: s32, ticks: s32): (r: Report<Edge>)
    ensures r.state.prev == cond
    ensures s.prev != cond ==> r.state.expire == Arm(now, Clamp(ticks))
    ensures s.prev == cond ==> r.state.expire == s.expire
    ensures r.fired <==> (s.timing || s.prev != cond) && Expired(now, r.state.expire)
    ensures r.fired ==> !r.state.timing
  {
    var armed := if s.prev != cond then Edge(cond, Arm(now, Clamp(ticks)), true) else s.(prev := cond);
    if armed.timing && Expired(now, armed.expire) then Report(armed.(timing := false), true)
    else Report(armed, false)
  }

  /** change_to_immed: reports a rising edge. */
  function ToImmed(prev: bool, cond: bool): (r: Report<bool>)
    ensures r.state == cond
    ensures r.fired <==> cond && !prev
  {
    Report(cond, !prev && cond)
  }

  /** change_from_immed: reports a falling edge. */
  function FromImmed(prev: bool, cond: bool): (r: Report<bool>)
    ensures r.state == cond
    ensures r.fired <==> prev && !cond
  {
    Report(cond, prev && !cond)
  }

  /** change_either_immed: reports any edge. */
  function EitherImmed(prev: bool, cond: bool): (r: Report<bool>)
    ensures r.state == cond
    ensures r.fired <==> prev != cond
  {
    Report(cond, prev != cond)
  }

  /** An edge of either direction is exactly one rising or falling edge. */
  lemma EitherIsToOrFrom(prev: bool, cond: bool)
    ensures EitherImmed(prev, cond).fired <==> ToImmed(prev, cond).fired || FromImmed(prev, cond).fired
    ensures !(ToImmed(prev, cond).fired && FromImmed(prev, cond).fired)
  {
  }

  /** The immediate detectors are the timed ones with a zero (or negative)
      filter, started from an idle timer. */
  lemma {:induction false} ImmedIsZeroFilter(thresh: s32, prev: s32, p: bool, arg: s32, cond: bool,
                                             delta: s32, expire: s32, now: s32, ticks: s32)
    requires ticks <= 0
    ensures UpStep(Thresh(thresh, expire, false), arg, delta, now, ticks).fired == UpImmedStep(thresh, arg, delta).fired
    ensures UpStep(Thresh(thresh, expire, false), arg, delta, now, ticks).state.thresh == UpImmedStep(thresh, arg, delta).state
    ensures DownStep(Thresh(thresh, expire, false), arg, delta, now, ticks).fired == DownImmedStep(thresh, arg, delta).fired
    ensures DownStep(Thresh(thresh, expire, false), arg, delta, now, ticks).state.thresh == DownImmedStep(thresh, arg, delta).state
    ensures ByStep(By(prev, expire, false), arg, delta, now, ticks).fired == ByImmedStep(prev, arg, delta).fired
    ensures ByStep(By(prev, expire, false), arg, delta, now, ticks).state.prev == ByImmedStep(prev, arg, delta).state
    ensures ToStep(Edge(p, expire, false), cond, now, ticks).fired == ToImmed(p, cond).fired
    ensures FromStep(Edge(p, expire, false), cond, now, ticks).fired == FromImmed(p, cond).fired
    ensures EitherStep(Edge(p, expire, false), cond, now, ticks).fired == EitherImmed(p, cond).fired
  {
    assert Clamp(ticks) == 0;
    ArmedNow(now, 0);
  }

  /** The timed rise detector confirms over the filter duration: from an
      idle timer, `arg` at or above the threshold at `start` and again e
      ticks later reports at the first call iff the clamped duration is 0,
      and otherwise at the second call iff e reaches it. */
  lemma {:induction false} UpDelay(s: Thresh, arg: s32, arg2: s32, delta: s32, start: s32, ticks: s32, e: int)
    requires !s.timing && arg >= s.thresh && arg2 >= s.thresh
    requires 0 <= e <= S32_MAX
    ensures UpStep(s, arg, delta, start, ticks).fired <==> Clamp(ticks) == 0
    ensures Clamp(ticks) > 0 ==>
              (UpStep(UpStep(s, arg, delta, start, ticks).state, arg2, delta, Wrap(start + e), ticks).fired <==>
               e >= Clamp(ticks))
  {
    ArmedNow(start, Clamp(ticks));
    ExpiredAfter(start, Clamp(ticks), e);
  }

  /** The timed fall detector, the mirror of UpDelay: from an idle timer,
      `arg` at or below the threshold at `start` and again e ticks later
      reports at the first call iff the clamped duration is 0, and otherwise
      at the second call iff e reaches it. */
  lemma {:induction false} DownDelay(s: Thresh, arg: s32, arg2: s32, delta: s32, start: s32, ticks: s32, e: int)
    requires !s.timing && arg <= s.thresh && arg2 <= s.thresh
    requires 0 <= e <= S32_MAX
    ensures DownStep(s, arg, delta, start, ticks).fired <==> Clamp(ticks) == 0
    ensures Clamp(ticks) > 0 ==>
              (DownStep(DownStep(s, arg, delta, start, ticks).state, arg2, delta, Wrap(start + e), ticks).fired <==>
               e >= Clamp(ticks))
  {
    ArmedNow(start, Clamp(ticks));
    ExpiredAfter(start, Clamp(ticks), e);
  }

  /** The timed move detector confirms the same way: from an idle timer, a
      move of at least `delta` from the reference at `start`, still that far
      away e ticks later, reports at the first call iff the clamped duration
      is 0, and otherwise at the second call iff e reaches it. */
  lemma {:induction false} ByDelay(s: By, arg: s32, arg2: s32, delta: s32, start: s32, ticks: s32, e: int)
    requires !s.timing && Distance(arg, s.prev) >= Delta(delta) && Distance(arg2, s.prev) >= Delta(delta)
    requires 0 <= e <= S32_MAX
    ensures ByStep(s, arg, delta, start, ticks).fired <==> Clamp(ticks) == 0
    ensures Clamp(ticks) > 0 ==>
              (ByStep(ByStep(s, arg, delta, start, ticks).state, arg2, delta, Wrap(start + e), ticks).fired <==>
               e >= Clamp(ticks))
  {
    ArmedNow(start, Clamp(ticks));
    ExpiredAfter(start, Clamp(ticks), e);
  }

  /** Reported once: right after a report, the same value (without s32
      overflow of `arg + delta`) does not report again. */
  lemma UpOnce(s: Thresh, arg: s32, delta: s32, now: s32, ticks: s32, later: s32)
    requires UpStep(s, arg, delta, now, ticks).fired
    requires arg + Delta(delta) <= S32_MAX
    ensures !UpStep(UpStep(s, arg, delta, now, ticks).state, arg, delta, later, ticks).fired
  {
  }

  /** The smallest element of a non-empty sequence. */
  function SeqMin(xs: seq<int>): (m: int)
    requires xs != []
    ensures m in xs
    ensures forall i :: 0 <= i < |xs| ==> m <= xs[i]
    decreases |xs|
  {
    if |xs| == 1 then xs[0]
    else
      var m := SeqMin(xs[..|xs| - 1]);
      if xs[|xs| - 1] < m then xs[|xs| - 1] else m
  }

  /** Successive change_up_immed_s32 calls, the threshold they leave. */
  function UpImmedRun(thresh: s32, args: seq<s32>, delta: s32): s32
    decreases |args|
  {
    if args == [] then thresh
    else UpImmedStep(UpImmedRun(thresh, args[..|args| - 1], delta), args[|args| - 1], delta).state
  }

  /** No call of the run reports a rise. */
  predicate Quiet(thresh: s32, args: seq<s32>, delta: s32)
    decreases |args|
  {
    args == [] ||
    (Quiet(thresh, args[..|args| - 1], delta) &&
     !UpImmedStep(UpImmedRun(thresh, args[..|args| - 1], delta), args[|args| - 1], delta).fired)
  }

  /** What change_up_immed_s32 detects: after change_up_immed_s32_init at
      `a0` and a run of calls none of which reported, the threshold is the
      lowest value seen plus `delta`, so the next call reports exactly a rise
      of at least `delta` above the trough (values small enough that
      `arg + delta` does not overflow). */
  lemma {:induction false} UpTracksTrough(a0: s32, args: seq<s32>, delta: s32)
    requires a0 + Delta(delta) <= S32_MAX
    requires forall i :: 0 <= i < |args| ==> args[i] + Delta(delta) <= S32_MAX
    requires Quiet(Wrap(a0 + Delta(delta)), args, delta)
    ensures UpImmedRun(Wrap(a0 + Delta(delta)), args, delta) == SeqMin([a0] + args) + Delta(delta)
    decreases |args|
  {
    if args == [] {
      assert [a0] + args == [a0];
    } else {
      var n := |args| - 1;
      var prefix := args[..n];
      assert forall i :: 0 <= i < |prefix| ==> prefix[i] == args[i];
      UpTracksTrough(a0, prefix, delta);
      assert args == prefix + [args[n]];
      TroughNext(a0, prefix, args[n], delta);
    }
  }

  /** The inductive step of UpTracksTrough: one more quiet call. */
  lemma {:induction false} TroughNext(a0: s32, prefix: seq<s32>, x: s32, delta: s32)
    requires a0 + Delta(delta) <= S32_MAX && x + Delta(delta) <= S32_MAX
    requires UpImmedRun(Wrap(a0 + Delta(delta)), prefix, delta) == SeqMin([a0] + prefix) + Delta(delta)
    requires !UpImmedStep(UpImmedRun(Wrap(a0 + Delta(delta)), prefix, delta), x, delta).fired
    ensures UpImmedRun(Wrap(a0 + Delta(delta)), prefix + [x], delta) == SeqMin([a0] + (prefix + [x])) + Delta(delta)
  {
    var t0 := Wrap(a0 + Delta(delta));
    assert (prefix + [x])[..|prefix|] == prefix;
    assert UpImmedRun(t0, prefix + [x], delta) == UpImmedStep(UpImmedRun(t0, prefix, delta), x, delta).state;
    var m := SeqMin([a0] + prefix);
    assert [a0] + (prefix + [x]) == ([a0] + prefix) + [x] by {
      SeqAssoc([a0], prefix, [x]);
    }
    SeqMinSnoc([a0] + prefix, x);
    TroughStep(m, x, delta);
  }

  lemma SeqAssoc(a: seq<s32>, b: seq<s32>, c: seq<s32>)
    ensures a + (b + c) == (a + b) + c
  {
  }

  /** Appending an element takes the smaller of it and the old minimum. */
  lemma SeqMinSnoc(xs: seq<int>, x: int)
    requires xs != []
    ensures SeqMin(xs + [x]) == if x < SeqMin(xs) then x else SeqMin(xs)
  {
    assert (xs + [x])[..|xs|] == xs;
  }

  /** One non-reporting call moves the threshold from `m + delta` to the new
      minimum plus `delta`. */
  lemma TroughStep(m: int, arg: s32, delta: s32)
    requires -TWO_31 <= m && m + Delta(delta) <= S32_MAX
    requires arg + Delta(delta) <= S32_MAX
    requires arg < m + Delta(delta)
    ensures UpImmedStep(m + Delta(delta), arg, delta).state == (if arg < m then arg else m) + Delta(delta)
  {
  }

  /** change_up_s32_state and change_down_s32_state. */
  class Threshold {
    var thresh: s32
    var expire: s32
    var timing: bool

    function State(): Thresh
      reads this
    {
      Thresh(thresh, expire, timing)
    }

    /** Zero-initialised static storage. */
    constructor ()
      ensures State() == Thresh(0, 0, false)
    {
      thresh, expire, timing := 0, 0, false;
    }

    /** The confirmation block, as the code runs it. */
    method ConfirmTime(now: s32, ticks: s32) returns (fired: bool)
      modifies this
      ensures Confirm(timing, expire) == ConfirmStep(Confirm(old(timing), old(expire)), now, ticks).state
      ensures fired == ConfirmStep(Confirm(old(timing), old(expire)), now, ticks).fired
      ensures thresh == old(thresh)
    {
      if !timing {
        expire := Wrap(now + Clamp(ticks));
        timing := true;
      }
      if Wrap(now - expire) >= 0 {
        timing := false;
        return true;
      }
      return false;
    }

    /** change_up_s32. */
    method Up(arg: s32, delta: s32, now: s32, ticks: s32) returns (fired: bool)
      modifies this
      ensures Report(State(), fired) == UpStep(old(State()), arg, delta, now, ticks)
    {
      var d := if delta < 1 then 1 else delta;
      if arg >= thresh {
        fired := ConfirmTime(now, ticks);
        if fired {
          thresh := Wrap(arg + d);
        }
        return;
      }
      timing := false;
      var next := Wrap(arg + d);
      if next < thresh {
        thresh := next;
      }
      return false;
    }

    /** change_up_s32_init: the threshold starts `delta` (at least 1) above
        `arg`. */
    method UpInit(arg: s32, delta: s32)
      modifies this
      ensures State() == old(State()).(thresh := Wrap(arg + Delta(delta)))
    {
      var d := if delta < 1 then 1 else delta;
      thresh := Wrap(arg + d);
    }

    /** change_down_s32. */
    method Down(arg: s32, delta: s32, now: s32, ticks: s32) returns (fired: bool)
      modifies this
      ensures Report(State(), fired) == DownStep(old(State()), arg, delta, now, ticks)
    {
      var d := if delta < 1 then 1 else delta;
      if arg <= thresh {
        fired := ConfirmTime(now, ticks);
        if fired {
          thresh := Wrap(arg - d);
        }
        return;
      }
      timing := false;
      var next := Wrap(arg - d);
      if next > thresh {
        thresh := next;
      }
      return false;
    }

    /** change_down_s32_init: the threshold starts `delta` (at least 1) below
        `arg`. */
    method DownInit(arg: s32, delta: s32)
      modifies this
      ensures State() == old(State()).(thresh := Wrap(arg - Delta(delta)))
    {
      var d := if delta < 1 then 1 else delta;
      thresh := Wrap(arg - d);
    }
  }

  /** change_up_immed_s32_state and change_down_immed_s32_state. */
  class ImmedThreshold {
    var thresh: s32

    constructor ()
      ensures thresh == 0
    {
      thresh := 0;
    }

    /** change_up_immed_s32. */
    method Up(arg: s32, delta: s32) returns (fired: bool)
      modifies this
      ensures Report(thresh, fired) == UpImmedStep(old(thresh), arg, delta)
    {
      var d := if delta < 1 then 1 else delta;
      if arg >= thresh {
        thresh := Wrap(arg + d);
        return true;
      }
      var next := Wrap(arg + d);
      if next < thresh {
        thresh := next;
      }
      return false;
    }

    /** change_up_immed_s32_init. */
    method UpInit(arg: s32, delta: s32)
      modifies this
      ensures thresh == Wrap(arg + Delta(delta))
    {
      var d := if delta < 1 then 1 else delta;
      thresh := Wrap(arg + d);
    }

    /** change_down_immed_s32. */
    method Down(arg: s32, delta: s32) returns (fired: bool)
      modifies this
      ensures Report(thresh, fired) == DownImmedStep(old(thresh), arg, delta)
    {
      var d := if delta < 1 then 1 else delta;
      if arg <= thresh {
        thresh := Wrap(arg - d);
        return true;
      }
      var next := Wrap(arg - d);
      if next > thresh {
        thresh := next;
      }
      return false;
    }

    /** change_down_immed_s32_init. */
    method DownInit(arg: s32, delta: s32)
      modifies this
      ensures thresh == Wrap(arg - Delta(delta))
    {
      var d := if delta < 1 then 1 else delta;
      thresh := Wrap(arg - d);
    }
  }

  /** change_by_s32_state. */
  class ByS32 {
    var prev: s32
    var expire: s32
    var timing: bool

    function State(): By
      reads this
    {
      By(prev, expire, timing)
    }

    constructor ()
      ensures State() == By(0, 0, false)
    {
      prev, expire, timing := 0, 0, false;
    }

    /** change_by_s32. */
    method Update(arg: s32, delta: s32, now: s32, ticks: s32) returns (fired: bool)
      modifies this
      ensures Report(State(), fired) == ByStep(old(State()), arg, delta, now, ticks)
    {
      var d := if delta < 1 then 1 else delta;
      if Calculate.AbsoluteS32(Wrap(arg - prev)) >= d {
        if !timing {
          expire := Wrap(now + Clamp(ticks));
          timing := true;
        }
        if Wrap(now - expire) >= 0 {
          prev := arg;
          timing := false;
          return true;
        }
        return false;
      }
      timing := false;
      return false;
    }

    /** change_by_s32_init: `arg` is the reference value. */
    method Init(arg: s32)
      modifies this
      ensures State() == old(State()).(prev := arg)
    {
      prev := arg;
    }
  }

  /** change_by_immed_s32_state. */
  class ByImmedS32 {
    var prev: s32

    constructor ()
      ensures prev == 0
    {
      prev := 0;
    }

    /** change_by_immed_s32. */
    method Update(arg: s32, delta: s32) returns (fired: bool)
      modifies this
      ensures Report(prev, fired) == ByImmedStep(old(prev), arg, delta)
    {
      var d := if delta < 1 then 1 else delta;
      if Calculate.AbsoluteS32(Wrap(arg - prev)) >= d {
        prev := arg;
        return true;
      }
      return false;
    }

    /** change_by_immed_s32_init. */
    method Init(arg: s32)
      modifies this
      ensures prev == arg
    {
      prev := arg;
    }
  }

  /** change_to_state, change_from_state and change_either_state. */
  class EdgeState {
    var prev: bool
    var expire: s32
    var timing: bool

    function State(): Edge
      reads this
    {
      Edge(prev, expire, timing)
    }

    constructor ()
      ensures State() == Edge(false, 0, false)
    {
      prev, expire, timing := false, 0, false;
    }

    /** change_to. */
    method To(cond: bool, now: s32, ticks: s32) returns (fired: bool)
      modifies this
      ensures Report(State(), fired) == ToStep(old(State()), cond, now, ticks)
    {
      var edge := !prev && cond;
      prev := cond;
      if edge {
        expire := Wrap(now + Clamp(ticks));
        timing := true;
      }
      if cond && timing && Wrap(now - expire) >= 0 {
        timing := false;
        return true;
      }
      if !cond {
        timing := false;
      }
      return false;
    }

    /** change_from. */
    method From(cond: bool, now: s32, ticks: s32) returns (fired: bool)
      modifies this
      ensures Report(State(), fired) == FromStep(old(State()), cond, now, ticks)
    {
      var edge := prev && !cond;
      prev := cond;
      if edge {
        expire := Wrap(now + Clamp(ticks));
        timing := true;
      }
      if !cond && timing && Wrap(now - expire) >= 0 {
        timing := false;
        return true;
      }
      if cond {
        timing := false;
      }
      return false;
    }

    /** change_either. */
    method Either(cond: bool, now: s32, ticks: s32) returns (fired: bool)
      modifies this
      ensures Report(State(), fired) == EitherStep(old(State()), cond, now, ticks)
    {
      var edge := prev != cond;
      prev := cond;
      if edge {
        expire := Wrap(now + Clamp(ticks));
        timing := true;
      }
      if timing && Wrap(now - expire) >= 0 {
        timing := false;
        return true;
      }
      return false;
    }

    /** change_to_init, change_from_init, change_either_init: only the
        previous condition is written. */
    method Init(cond: bool)
      modifies this
      ensures State() == old(State()).(prev := cond)
    {
      prev := cond;
    }
  }

  /** change_to_immed_state, change_from_immed_state and
      change_either_immed_state. */
  class EdgeImmed {
    var prev: bool

    constructor ()
      ensures !prev
    {
      prev := false;
    }

    /** change_to_immed. */
    method To(cond: bool) returns (fired: bool)
      modifies this
      ensures Report(prev, fired) == ToImmed(old(prev), cond)
      ensures prev == cond && (fired <==> !old(prev) && cond)
    {
      fired := !prev && cond;
      prev := cond;
    }

    /** change_from_immed. */
    method From(cond: bool) returns (fired: bool)
      modifies this
      ensures Report(prev, fired) == FromImmed(old(prev), cond)
      ensures prev == cond && (fired <==> old(prev) && !cond)
    {
      fired := prev && !cond;
      prev := cond;
    }

    /** change_either_immed. */
    method Either(cond: bool) returns (fired: bool)
      modifies this
      ensures Report(prev, fired) == EitherImmed(old(prev), cond)
      ensures prev == cond && (fired <==> old(prev) != cond)
    {
      fired := prev != cond;
      prev := cond;
    }

    /** change_to_immed_init, change_from_immed_init,
        change_either_immed_init. */
    method Init(cond: bool)
      modifies this
      ensures prev == cond
    {
      prev := cond;
    }
  }

  /** change_to reports once per rising edge: after a report the timer is
      stopped, and without a new edge no later call reports. */
  lemma ToOnce(s: Edge, cond: bool, cond2: bool, now: s32, later: s32, ticks: s32)
    requires ToStep(s, cond, now, ticks).fired
    ensures !ToStep(ToStep(s, cond, now, ticks).state, cond2, later, ticks).fired
  {
  }

  /** change_from reports once per falling edge: after a report the timer
      is stopped, and without a new edge no later call reports. */
  lemma FromOnce(s: Edge, cond: bool, cond2: bool, now: s32, later: s32, ticks: s32)
    requires FromStep(s, cond, now, ticks).fired
    ensures !FromStep(FromStep(s, cond, now, ticks).state, cond2, later, ticks).fired
  {
  }

  /** change_to confirms over the filter duration: a rising edge at `start`
      with the condition still true e ticks later reports at the first call
      iff the clamped duration is 0, and otherwise at the second iff e
      reaches it. */
  lemma {:induction false} ToDelay(s: Edge, start: s32, ticks: s32, e: int)
    requires !s.prev
    requires 0 <= e <= S32_MAX
    ensures ToStep(s, true, start, ticks).fired <==> Clamp(ticks) == 0
    ensures Clamp(ticks) > 0 ==>
              (ToStep(ToStep(s, true, start, ticks).state, true, Wrap(start + e), ticks).fired <==>
               e >= Clamp(ticks))
  {
    ArmedNow(start, Clamp(ticks));
    ExpiredAfter(start, Clamp(ticks), e);
  }

  /** change_from confirms over the filter duration, the mirror of ToDelay:
      a falling edge at `start` with the condition still false e ticks later
      reports at the first call iff the clamped duration is 0, and otherwise
      at the second iff e reaches it. */
  lemma {:induction false} FromDelay(s: Edge, start: s32, ticks: s32, e: int)
    requires s.prev
    requires 0 <= e <= S32_MAX
    ensures FromStep(s, false, start, ticks).fired <==> Clamp(ticks) == 0
    ensures Clamp(ticks) > 0 ==>
              (FromStep(FromStep(s, false, start, ticks).state, false, Wrap(start + e), ticks).fired <==>
               e >= Clamp(ticks))
  {
    ArmedNow(start, Clamp(ticks));
    ExpiredAfter(start, Clamp(ticks), e);
  }
}
