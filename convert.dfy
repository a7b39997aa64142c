/** ecu/convert.h: the integer-to-integer conversions (the float
    conversions are PowerPC instructions and are not part of this model).
    Only the 0106 copy has the s32e7 conversions; the functions both copies
    have, convert_integer_u32 and convert_unsigned_s32, have the same bodies. */
module Convert {
  import opened Int32

  /** convert_integer_u32: a u32 with bit 31 set does not fit an s32 and
      saturates to 0x7FFFFFFF; every other value passes through. */
  function IntegerU32(arg: u32): (r: s32)
    ensures 0 <= r <= S32_MAX
    ensures arg <= S32_MAX ==> r == arg
    ensures arg > S32_MAX ==> r == S32_MAX
  {
    // `arg & 0x80000000` is non-zero exactly when arg >= 2^31
    if arg >= TWO_31 then S32_MAX else arg
  }

  /** convert_unsigned_s32: a negative or zero s32 becomes 0, a positive one
      passes through. */
  function UnsignedS32(arg: s32): (r: u32)
    ensures r <= S32_MAX
    ensures arg > 0 ==> r == arg
    ensures arg <= 0 ==> r == 0
  {
    if arg > 0 then arg else 0
  }

  /** convert_integer_s32e7: an s32e7 fixed-point value is already an s32;
      the bit pattern is kept, the scale of 10^7 is not removed. */
  function IntegerS32e7(arg: s32): (r: s32)
    ensures r == arg
  {
    arg
  }

  /** convert_s32e7: the argument is taken as already scaled by 10^7, so the
      bit pattern is kept. */
  function S32e7(arg: s32): (r: s32)
    ensures r == arg
  {
    arg
  }

  /** Every u32 that fits an s32 survives the trip u32 -> s32 -> u32, and every
      non-negative s32 survives s32 -> u32 -> s32. */
  lemma RoundTrip(x: u32, s: s32)
    ensures x <= S32_MAX ==> UnsignedS32(IntegerU32(x)) == x
    ensures s >= 0 ==> IntegerU32(UnsignedS32(s)) == s
  {
  }

  /** Converting u32 -> s32 -> u32 never gives back more than was put in, and
      loses something exactly when the value does not fit an s32. */
  lemma SaturationLoses(x: u32)
    ensures UnsignedS32(IntegerU32(x)) <= x
    ensures UnsignedS32(IntegerU32(x)) == x <==> x <= S32_MAX
  {
  }
}
