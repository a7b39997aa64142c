/** The SDK's fixed-width integer types (`s32`, `u32` in ecu/types.h) as
    subset types of `int`, and the two's-complement wrap-around that the
    PowerPC target applies to their arithmetic. */
module Int32 {
  const TWO_31: int := 0x8000_0000
  const TWO_32: int := 0x1_0000_0000
  /** Largest s32, the saturation value used throughout system.h. */
  const S32_MAX: int := 0x7fff_ffff

  type s32 = x: int | -0x8000_0000 <= x < 0x8000_0000
  type u32 = x: int | 0 <= x < 0x1_0000_0000

  /** The s32 register value that the exact result x leaves behind. */
  function Wrap(x: int): (r: s32)
    ensures (x - r) % TWO_32 == 0
    ensures -TWO_31 <= x < TWO_31 ==> r == x
  {
    ((x + TWO_31) % TWO_32) - TWO_31
  }

  /** The u32 register value that the exact result x leaves behind. */
  function WrapU(x: int): (r: u32)
    ensures (x - r) % TWO_32 == 0
    ensures 0 <= x < TWO_32 ==> r == x
  {
    x % TWO_32
  }

  /** Reading a u32 bit pattern as s32 (a C conversion between the two). */
  function Signed(u: u32): (r: s32)
    ensures (u - r) % TWO_32 == 0
    ensures r < 0 <==> u >= TWO_31
  {
    if u < TWO_31 then u else u - TWO_32
  }

  /** Reading an s32 bit pattern as u32. */
  function Unsigned(s: s32): (r: u32)
    ensures (s - r) % TWO_32 == 0
    ensures s >= 0 ==> r == s
  {
    if s >= 0 then s else s + TWO_32
  }

  /** Two values that agree modulo 2^32 wrap to the same register value. */
  lemma WrapCongruent(x: int, y: int)
    requires (x - y) % TWO_32 == 0
    ensures Wrap(x) == Wrap(y)
  {
    var k := (x - y) / TWO_32;
    assert x == y + k * TWO_32;
    assert (x + TWO_31) % TWO_32 == (y + TWO_31 + k * TWO_32) % TWO_32;
    ModAddMultiple(y + TWO_31, k);
  }

  lemma ModAddMultiple(a: int, k: int)
    ensures (a + k * TWO_32) % TWO_32 == a % TWO_32
  {
  }

  /** Signed and Unsigned are inverse readings of one bit pattern. */
  lemma {:induction false} SignedUnsigned(s: s32, u: u32)
    ensures Signed(Unsigned(s)) == s
    ensures Unsigned(Signed(u)) == u
  {
  }
}

/** The deadline idiom that every timed state machine of the SDK repeats:
    `expire = now + (s32)(filter / tick_period_f32())` to arm a timer and
    `(now - expire) >= 0` to test it, both in wrap-around s32 arithmetic. */
module Deadline {
  import opened Int32

  /** The duration in ticks once a negative filter has been clamped to 0.
      `ticks` is `(s32)(filter / tick_period_f32())` of the unclamped filter;
      since the tick period is positive, clamping the filter first gives 0
      exactly when this is not positive. */
  function Clamp(ticks: s32): (d: s32)
    ensures d >= 0
    ensures d == ticks || (ticks < 0 && d == 0)
  {
    if ticks < 0 then 0 else ticks
  }

  /** The deadline `now + ticks`, wrapped to s32. */
  function Arm(now: s32, ticks: s32): (e: s32)
    ensures (now + ticks - e) % TWO_32 == 0
  {
    Wrap(now + ticks)
  }

  /** `(now - expire) >= 0`: the deadline is reached. */
  predicate Expired(now: s32, expire: s32)
  {
    Wrap(now - expire) >= 0
  }

  /** The meaning of the wrap-around test: for a timer armed with d ticks at
      `start`, a later reading `e` ticks after `start` (both below 2^31) has
      expired exactly when e >= d, whatever the absolute tick values. */
  lemma {:induction false} ExpiredAfter(start: s32, d: int, e: int)
    requires 0 <= d <= S32_MAX && 0 <= e <= S32_MAX
    ensures Expired(Wrap(start + e), Arm(start, d)) <==> e >= d
  {
    var now := Wrap(start + e);
    var expire := Wrap(start + d);
    assert (now - expire - (e - d)) % TWO_32 == 0 by {
      assert (start + e - now) % TWO_32 == 0;
      assert (start + d - expire) % TWO_32 == 0;
      var a := (start + e - now) / TWO_32;
      var b := (start + d - expire) / TWO_32;
      assert now - expire - (e - d) == (b - a) * TWO_32;
    }
    WrapCongruent(now - expire, e - d);
  }

  /** A timer armed with a positive duration has not expired at the instant
      it is armed; one armed with zero duration has. */
  lemma ArmedNow(now: s32, d: int)
    requires 0 <= d <= S32_MAX
    ensures Expired(now, Arm(now, d)) <==> d == 0
  {
    ExpiredAfter(now, d, 0);
    assert Wrap(now + 0) == now;
  }
}
