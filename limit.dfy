/** ecu/limit.h: clamping a value from below, from above, or into a range.
    The s32 versions work on `s32`; the f32 versions use the same comparisons
    and are modelled over `real`. */
module Limit {
  import opened Int32

  /** limit_min_s32: never below `min`, and `arg` itself when it already is. */
  function MinS32(arg: s32, min: s32): (r: s32)
    ensures r >= min
    ensures arg >= min ==> r == arg
    ensures r == arg || r == min
  {
    if arg < min then min else arg
  }

  /** limit_min_f32, over reals. */
  function MinF32(arg: real, min: real): (r: real)
    ensures r >= min
    ensures arg >= min ==> r == arg
    ensures r == arg || r == min
  {
    if arg < min then min else arg
  }

  /** limit_max_s32: never above `max`, and `arg` itself when it already is. */
  function MaxS32(arg: s32, max: s32): (r: s32)
    ensures r <= max
    ensures arg <= max ==> r == arg
    ensures r == arg || r == max
  {
    if arg > max then max else arg
  }

  /** limit_max_f32, over reals. */
  function MaxF32(arg: real, max: real): (r: real)
    ensures r <= max
    ensures arg <= max ==> r == arg
    ensures r == arg || r == max
  {
    if arg > max then max else arg
  }

  /** limit_range_s32: the `min` test comes first, so with `min > max` a value
      below `min` still gives `min`. With `min <= max` the result lies in the
      range and is `arg` whenever `arg` does. */
  function RangeS32(arg: s32, min: s32, max: s32): (r: s32)
    ensures arg < min ==> r == min
    ensures min <= max ==> min <= r <= max
    ensures min <= arg <= max ==> r == arg
    ensures r == arg || r == min || r == max
  {
    if arg < min then min
    else if arg > max then max
    else arg
  }

  /** limit_range_f32, over reals. */
  function RangeF32(arg: real, min: real, max: real): (r: real)
    ensures arg < min ==> r == min
    ensures min <= max ==> min <= r <= max
    ensures min <= arg <= max ==> r == arg
    ensures r == arg || r == min || r == max
  {
    if arg < min then min
    else if arg > max then max
    else arg
  }

  /** With a proper range, clamping twice is clamping once, and clamping into
      a range is clamping from below and then from above. */
  lemma RangeS32Idempotent(arg: s32, min: s32, max: s32)
    requires min <= max
    ensures RangeS32(RangeS32(arg, min, max), min, max) == RangeS32(arg, min, max)
    ensures RangeS32(arg, min, max) == MaxS32(MinS32(arg, min), max)
  {
  }

  /** The same two facts for the real-valued clamp. */
  lemma RangeF32Idempotent(arg: real, min: real, max: real)
    requires min <= max
    ensures RangeF32(RangeF32(arg, min, max), min, max) == RangeF32(arg, min, max)
    ensures RangeF32(arg, min, max) == MaxF32(MinF32(arg, min), max)
  {
  }

  /** With an inverted range (`min > max`) the `min` test wins: every
      argument below `min` gives `min`, every other argument gives `max`. */
  lemma RangeS32Inverted(arg: s32, min: s32, max: s32)
    requires min > max
    ensures RangeS32(arg, min, max) == (if arg < min then min else max)
  {
  }
}
