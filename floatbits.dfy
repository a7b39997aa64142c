/** math.h (SDK 01.04.00.0099): `isinf`, `isnan`, `isnormal` and `isfinite`
    decided on the raw IEEE 754 binary32 encoding of a float (the bits
    `__FLOAT_BITS` reads through a union). Bit 31 is the sign, bits 30..23
    the biased exponent, bits 22..0 the fraction (section 3.4 of
    IEEE 754-2008). */
module FloatBits {
  /** The biased exponent field. */
  function Exponent(bits: bv32): bv32
  {
    (bits >> 23) & 0xFF
  }

  /** The trailing significand (fraction) field. */
  function Fraction(bits: bv32): bv32
  {
    bits & 0x7F_FFFF
  }

  /** The encoding with the sign bit flipped (the negated float). */
  function Negate(bits: bv32): bv32
  {
    bits ^ 0x8000_0000
  }

  /** isinf: exponent all ones and fraction zero, either sign. */
  function IsInf(bits: bv32): (r: bool)
    ensures r <==> Exponent(bits) == 0xFF && Fraction(bits) == 0
  {
    (bits & 0x7fff_ffff) == 0x7f80_0000
  }

  /** isnan: exponent all ones and fraction non-zero, either sign. */
  function IsNan(bits: bv32): (r: bool)
    ensures r <==> Exponent(bits) == 0xFF && Fraction(bits) != 0
  {
    (bits & 0x7fff_ffff) > 0x7f80_0000
  }

  /** isnormal: adding one to the exponent field (with wrap-around at bit 31)
      lands at 2 or above exactly when the exponent is neither 0 (zero and
      subnormals) nor all ones (infinities and NaNs). */
  function IsNormal(bits: bv32): (r: bool)
    ensures r <==> 1 <= Exponent(bits) <= 0xFE
  {
    ((bits + 0x0080_0000) & 0x7fff_ffff) >= 0x0100_0000
  }

  /** isfinite: strictly below the largest finite magnitude 0x7F7FFFFF. The
      SDK treats FLT_MAX itself as not finite on purpose, because the
      PowerPC SPE unit saturates infinite and NaN results to it. */
  function IsFinite(bits: bv32): (r: bool)
    ensures r <==> Exponent(bits) < 0xFF && !(Exponent(bits) == 0xFE && Fraction(bits) == 0x7F_FFFF)
  {
    (bits & 0x7fff_ffff) < 0x7F7F_FFFF
  }

  /** The four classifications ignore the sign bit. */
  lemma SignIgnored(bits: bv32)
    ensures IsInf(Negate(bits)) == IsInf(bits)
    ensures IsNan(Negate(bits)) == IsNan(bits)
    ensures IsNormal(Negate(bits)) == IsNormal(bits)
    ensures IsFinite(Negate(bits)) == IsFinite(bits)
  {
  }

  /** No encoding is both infinite and NaN; a finite one is neither, and a
      normal one is either finite or FLT_MAX. */
  lemma Exclusive(bits: bv32)
    ensures !(IsInf(bits) && IsNan(bits))
    ensures IsFinite(bits) ==> !IsInf(bits) && !IsNan(bits)
    ensures IsNormal(bits) ==> IsFinite(bits) || bits & 0x7fff_ffff == 0x7F7F_FFFF
  {
  }

  /** Zero, subnormals, infinities and NaNs are not normal. */
  lemma NotNormal(bits: bv32)
    ensures Exponent(bits) == 0 ==> !IsNormal(bits)
    ensures IsInf(bits) || IsNan(bits) ==> !IsNormal(bits)
  {
  }

  /** Particular encodings: +0, the smallest normal, FLT_MAX, +infinity and
      the default quiet NaN. */
  lemma Examples()
    ensures !IsNormal(0) && IsFinite(0) && !IsInf(0) && !IsNan(0)
    ensures IsNormal(0x0080_0000) && IsFinite(0x0080_0000)
    ensures IsNormal(0x7F7F_FFFF) && !IsFinite(0x7F7F_FFFF) && !IsInf(0x7F7F_FFFF)
    ensures IsInf(0x7F80_0000) && IsInf(0xFF80_0000) && !IsFinite(0xFF80_0000)
    ensures IsNan(0x7FC0_0000) && !IsNormal(0x7FC0_0000)
  {
  }
}
