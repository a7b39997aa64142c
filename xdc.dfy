/** ecu/xdc.h: the received XDC messages and their bounds-checked views.
    `xdc_state.m` holds eight 8-byte messages, each readable through a union
    as bytes or as 16-bit words, signed or unsigned; on the big-endian
    target word `off` is bytes `2*off` (high) and `2*off+1` (low).
    `msg_ticks` is the tick count of the last reception, 0 for none. */
module Xdc {
  import opened Int32
  import SystemTicks
  import BitMask

  const MESSAGES: nat := 8
  const MESSAGE_BYTES: nat := 8
  const MESSAGE_WORDS: nat := 4

  type u8 = x: int | 0 <= x < 0x100

  /** The shape of `m[8]`: eight messages of eight bytes. */
  predicate Valid(m: seq<seq<u8>>)
  {
    |m| == MESSAGES && forall i :: 0 <= i < |m| ==> |m[i]| == MESSAGE_BYTES
  }

  /** as_u16[off] */
  function Word(b: seq<u8>, off: nat): int
    requires off < MESSAGE_WORDS && |b| == MESSAGE_BYTES
  {
    (b[2 * off] as int) * 0x100 + b[2 * off + 1]
  }

  /** as_s8[off]: the byte read in two's complement. */
  function SignedByte(x: u8): int
  {
    if x < 0x80 then x else x - 0x100
  }

  /** as_s16[off]: the high byte read signed, the low byte unsigned. */
  function SignedWord(b: seq<u8>, off: nat): int
    requires off < MESSAGE_WORDS && |b| == MESSAGE_BYTES
  {
    SignedByte(b[2 * off]) * 0x100 + b[2 * off + 1]
  }

  /** Sign extension of a `bits`-wide unsigned value. */
  function SignExtend(v: int, bits: nat): int
    requires bits > 0
  {
    if v < BitMask.Pow2(bits - 1) then v else v - BitMask.Pow2(bits)
  }

  /** xdc_get_unsigned: 0 for a message past the eighth, a word past the
      fourth or a byte past the eighth; otherwise the zero-extended view. */
  function GetUnsigned(m: seq<seq<u8>>, msg: u32, off: u32, word: bool): (r: u32)
    requires Valid(m)
    ensures msg >= MESSAGES ==> r == 0
    ensures word && off >= MESSAGE_WORDS ==> r == 0
    ensures !word && off >= MESSAGE_BYTES ==> r == 0
    ensures word ==> r < 0x1_0000
    ensures !word ==> r < 0x100
    ensures msg < MESSAGES && !word && off < MESSAGE_BYTES ==> r == m[msg][off]
  {
    if msg > 7 then 0
    else if word then
      if off > 3 then 0 else Word(m[msg], off)
    else
      if off > 7 then 0 else m[msg][off]
  }

  /** xdc_get_signed: the same bounds, with the sign-extended view. */
  function GetSigned(m: seq<seq<u8>>, msg: u32, off: u32, word: bool): (r: s32)
    requires Valid(m)
    ensures msg >= MESSAGES ==> r == 0
    ensures word && off >= MESSAGE_WORDS ==> r == 0
    ensures !word && off >= MESSAGE_BYTES ==> r == 0
    ensures word ==> -0x8000 <= r < 0x8000
    ensures !word ==> -0x80 <= r < 0x80
  {
    if msg > 7 then 0
    else if word then
      if off > 3 then 0 else SignedWord(m[msg], off)
    else
      if off > 7 then 0 else SignedByte(m[msg][off])
  }

  /** The signed getter sign-extends exactly the bits that the unsigned
      getter zero-extends: 16 of them for a word, 8 for a byte. */
  lemma {:induction false} SignedIsSignExtended(m: seq<seq<u8>>, msg: u32, off: u32, word: bool)
    requires Valid(m)
    ensures GetSigned(m, msg, off, word) == SignExtend(GetUnsigned(m, msg, off, word), if word then 16 else 8)
  {
    assert BitMask.Pow2(7) == 0x80 && BitMask.Pow2(8) == 0x100 by { BitMask.Pow2Values(); }
    assert BitMask.Pow2(15) == 0x8000 && BitMask.Pow2(16) == 0x1_0000 by { BitMask.Pow2Values(); }
  }

  /** A word read is the big-endian composition of the two byte reads at
      `2*off` and `2*off+1`, for the unsigned and the signed views alike. */
  lemma {:induction false} WordOverlaysBytes(m: seq<seq<u8>>, msg: u32, off: u32)
    requires Valid(m) && msg < MESSAGES && off < MESSAGE_WORDS
    ensures GetUnsigned(m, msg, off, true) ==
              GetUnsigned(m, msg, 2 * off, false) * 0x100 + GetUnsigned(m, msg, 2 * off + 1, false)
    ensures GetSigned(m, msg, off, true) ==
              GetSigned(m, msg, 2 * off, false) * 0x100 + GetUnsigned(m, msg, 2 * off + 1, false)
  {
  }

  /** xdc_rx_ticks on the stored tick count: the value stays while the last
      reception is less than 0x7fffffff ticks old, and is cleared (and 0 is
      returned) once the age saturates; 0 stays 0. */
  function RxStep(msgTicks: u32, now: u32): (r: u32)
    ensures r == 0 || r == msgTicks
    ensures r == 0 <==> msgTicks == 0 || SystemTicks.TicksSince(msgTicks, now) == S32_MAX
  {
    if msgTicks == 0 then 0
    else if SystemTicks.TicksSince(msgTicks, now) == 0x7fff_ffff then 0
    else msgTicks
  }

  /** A reception `age` ticks before `now` is still reported when `age` is
      below 0x7fffffff. */
  lemma {:induction false} RecentKept(msgTicks: u32, age: int)
    requires msgTicks != 0 && 0 <= age < S32_MAX
    ensures RxStep(msgTicks, WrapU(msgTicks + age)) == msgTicks
  {
    SystemTicks.BetweenAfter(msgTicks, age);
  }

  /** A reception at least 0x7fffffff ticks old (modulo 2^32) is cleared. */
  lemma {:induction false} StaleCleared(msgTicks: u32, age: int)
    requires msgTicks != 0 && S32_MAX <= age < TWO_32
    ensures RxStep(msgTicks, WrapU(msgTicks + age)) == 0
  {
    var now := WrapU(msgTicks + age);
    if age == S32_MAX {
      SystemTicks.BetweenAfter(msgTicks, age);
    } else {
      var k := TWO_32 - age;
      assert WrapU(now + k) == msgTicks by {
        assert (msgTicks + age - now) % TWO_32 == 0;
        SameResidue(now + k, msgTicks);
      }
      SystemTicks.BetweenBefore(now, k);
    }
  }

  lemma SameResidue(x: int, u: u32)
    requires (x - u) % TWO_32 == 0
    ensures WrapU(x) == u
  {
    var q := (x - u) / TWO_32;
    assert x == u + q * TWO_32;
  }

  /** xdc_state */
  class XdcState {
    var m: seq<seq<u8>>
    var msgTicks: u32

    /** Zero-initialised static storage. */
    constructor()
      ensures Valid(m) && msgTicks == 0
      ensures forall i, j :: 0 <= i < MESSAGES && 0 <= j < MESSAGE_BYTES ==> m[i][j] == 0
    {
      var zero := seq(MESSAGE_BYTES, _ => 0);
      m := seq(MESSAGES, _ => zero);
      msgTicks := 0;
    }

    /** xdc_rx_ticks, with `now` the current tick count. */
    method RxTicks(now: u32) returns (r: u32)
      modifies this
      ensures r == RxStep(old(msgTicks), now)
      ensures msgTicks == r && m == old(m)
    {
      if msgTicks == 0 {
        return 0;
      }
      var ticks := SystemTicks.TicksSince(msgTicks, now);
      if ticks == 0x7fff_ffff {
        msgTicks := 0;
      }
      r := msgTicks;
    }
  }
}
