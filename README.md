# MoTeC ECU SDK core — a Dafny model

This project models the inline logic of the MoTeC ECU scripting SDK headers
used by the Speedi-Tunes firmware. It covers:

- the calibration-table data model: axis configuration checks, axis search and
  position, the cached axis state, and the flat `[z][y][x]` table body with its
  learning-table writes;
- the timed latch and edge state machines of `calculate.h`, `change.h`,
  `delay.h`, `debounce.h` and `timer.h`, with the wrap-around deadline test
  `(now - expire) >= 0`;
- the integer and bit-level helpers:
  - `limit.h` clamps;
  - `system.h` tick arithmetic;
  - `convert.h` saturating conversions;
  - the `types.h` bitfield macros;
  - the `math.h` IEEE 754 binary32 classification on raw bits;
  - the `xdc.h` message views;
  - the `switch.h` table;
- CAN identifier packing and acceptance filtering (`can_types.h`), and the
  `can_tx.h` message set-up.

Conventions:

- `s32` and `u32` are subset types of `int`. C arithmetic on them is
  two's-complement wrap-around (`Int32.Wrap`), which is what the PowerPC
  target does.
- The clock is a parameter. `now` is the s32 reading of `ticks_u32()`.
- A filter or delay in seconds becomes its duration in ticks, `ticks`, which is
  `(s32)(filter / tick_period_f32())` of the unclamped filter. The C clamp
  `if (filter < 0) filter = 0` is then `Deadline.Clamp(ticks)`.
- Each state struct is a class with the same fields. Its per-call function is
  a method whose `ensures` ties the new fields and the result to a pure `…Step`
  function, and the properties are proved about that function.
- `f32` values are modelled as `real`, without rounding.
- Compile-time errors (`err_bad_length`, `err_bad_index`, `ctassert`) become
  preconditions or configuration predicates.

Where the same function appears in two SDK versions with the same logic
(`delay.h` 0017/0087, `convert.h` 0049/0106, `can_tx.h` 0016/0105), one model
serves both.

Where a doc comment and the code disagree, the model follows the code:

- The `xdc.h` doc says `xdc_rx_ticks` clears a message that is older than
  0x7fffffff ticks. The code clears it once `ticks_since_u32` returns
  0x7fffffff, which happens at exactly that age (`Xdc.StaleCleared`).
- The `table.h` doc for `axis_max_s32` says it "returns the lower limit". That
  function is not modelled.

## Model

| member | source | states |
|---|---|---|
| Int32.Wrap | Build/SDK/01.04.00.0062/include/ecu/types.h:10-11 | the s32 value left by an exact result is congruent to it modulo 2^32, and equal to it when it fits |
| Int32.SignedUnsigned | Build/SDK/01.04.00.0062/include/ecu/types.h:10-11 | reading a bit pattern as s32 and back as u32 (and the reverse) is the identity |
| Deadline.ExpiredAfter | Build/SDK/01.04.00.0081/include/ecu/calculate.h:46-52 | a deadline armed for d ticks at `start` tests expired at `start + e` exactly when e >= d, for any absolute tick values below 2^31 apart |
| Deadline.ArmedNow | Build/SDK/01.04.00.0081/include/ecu/calculate.h:46-52 | at the instant of arming, the deadline has expired only for a zero duration |
| Limit.MinS32 | Build/SDK/01.04.00.0087/include/ecu/limit.h:24-27 | result is >= min, is arg when arg >= min, and is one of the two |
| Limit.MinF32 | Build/SDK/01.04.00.0087/include/ecu/limit.h:33-36 | the same clamp over reals |
| Limit.MaxS32 | Build/SDK/01.04.00.0087/include/ecu/limit.h:52-55 | result is <= max, is arg when arg <= max, and is one of the two |
| Limit.MaxF32 | Build/SDK/01.04.00.0087/include/ecu/limit.h:61-64 | the same clamp over reals |
| Limit.RangeS32 | Build/SDK/01.04.00.0087/include/ecu/limit.h:81-88 | below min gives min; with min <= max the result lies in [min, max] and is arg inside it |
| Limit.RangeF32 | Build/SDK/01.04.00.0087/include/ecu/limit.h:94-101 | the same range clamp over reals |
| Limit.RangeS32Idempotent | Build/SDK/01.04.00.0087/include/ecu/limit.h:81-88 | with min <= max, clamping twice equals clamping once, and equals limit_max of limit_min |
| Limit.RangeF32Idempotent | Build/SDK/01.04.00.0087/include/ecu/limit.h:94-101 | the same two facts for the real clamp |
| Limit.RangeS32Inverted | Build/SDK/01.04.00.0087/include/ecu/limit.h:81-88 | with min > max the min test wins: min below min, max otherwise |
| SystemTicks.Compose | Build/SDK/01.04.00.0058/include/ecu/system.h:19-39 | the tick value is bits 8..39 of the 64-bit time base `tbhi:tblo` (shift 8) |
| SystemTicks.ReadTicks | Build/SDK/01.04.00.0058/include/ecu/system.h:29-40 | the retry loop returns the composition of the first sample whose two `tbhi` reads agree |
| SystemTicks.TicksBetween | Build/SDK/01.04.00.0058/include/ecu/system.h:55-63 | result lies in [0, 0x7fffffff] and is either the saturation value or `e - b` modulo 2^32 |
| SystemTicks.TicksSince | Build/SDK/01.04.00.0058/include/ecu/system.h:76-79 | result lies in [0, 0x7fffffff] and is either the saturation value or `now - prev` modulo 2^32 |
| SystemTicks.TicksRemaining | Build/SDK/01.04.00.0058/include/ecu/system.h:95-103 | result lies in [0, 0x7fffffff] and is 0 or `limit - ticks` modulo 2^32 |
| SystemTicks.HrTicks | Build/SDK/01.04.00.0058/include/ecu/system.h:113-118 | never 0; a non-zero register read is returned as is |
| SystemTicks.HrTicksSince | Build/SDK/01.04.00.0058/include/ecu/system.h:132-140 | result lies in [0, 0x7fffffff], and is saturated when prev is 0 |
| SystemTicks.ElapsedTicks | Build/SDK/01.04.00.0058/include/ecu/system.h:202-212 | the elapsed tick count is never negative and never above 0x7fffffff |
| SystemTicks.ElapsedTime.Init | Build/SDK/01.04.00.0058/include/ecu/system.h:214-217 | stores the current tick reading as prev |
| SystemTicks.ElapsedTime.Elapsed | Build/SDK/01.04.00.0058/include/ecu/system.h:202-212 | always stores prev = now, and returns the saturated tick difference times the period, never negative |
| SystemTicks.BetweenAfter | Build/SDK/01.04.00.0058/include/ecu/system.h:55-79 | an end k ticks after the start (k < 2^31) gives exactly k, through ticks_between and ticks_since alike |
| SystemTicks.BetweenBefore | Build/SDK/01.04.00.0058/include/ecu/system.h:55-63 | an end 1..2^31 ticks before the start saturates to 0x7fffffff |
| SystemTicks.RemainingBeforeAndAfter | Build/SDK/01.04.00.0058/include/ecu/system.h:95-103 | k ticks before the limit leaves k; at or past the limit leaves 0 |
| SystemTicks.HrSinceIsBetween | Build/SDK/01.04.00.0058/include/ecu/system.h:132-140 | with prev != 0, hr_ticks_since is ticks_between |
| SystemTicks.ElapsedIsBetween | Build/SDK/01.04.00.0058/include/ecu/system.h:202-212 | elapsed_time_f32's tick count is ticks_between of the same readings |
| Timer.RemainingStep | Build/SDK/01.04.00.0051/include/ecu/timer.h:41-53 | a stopped timer (expire 0) reads 0; a positive remainder is returned with expire kept; otherwise expire is cleared and 0 returned |
| Timer.CountDown.Set | Build/SDK/01.04.00.0051/include/ecu/timer.h:25-30 | stores expire = now + duration, wrapped |
| Timer.CountDown.Remaining | Build/SDK/01.04.00.0051/include/ecu/timer.h:41-53 | returns the remaining ticks times the period and stores RemainingStep's expire |
| Timer.CountsDown | Build/SDK/01.04.00.0051/include/ecu/timer.h:41-53 | e ticks after arming for d, the timer reads d - e while e < d and is stopped from then on |
| Timer.StoppedStays | Build/SDK/01.04.00.0051/include/ecu/timer.h:43-52 | once stopped, every later reading is 0 |
| Timer.SentinelDeadline | Build/SDK/01.04.00.0051/include/ecu/timer.h:25-44 | a deadline that wraps to exactly 0 is taken for a stopped timer |
| Calculate.Approach | Build/SDK/01.04.00.0081/include/ecu/calculate.h:46-60 | a running timer keeps its deadline, a new one is armed with the clamped duration, and the latch takes the target only once expired |
| Calculate.HysteresisStep | Build/SDK/01.04.00.0081/include/ecu/calculate.h:40-82 | between the thresholds, and at `high` with the latch set or at `low` with it clear, the latch and deadline are kept and only timing is cleared; the latch rises only on `high` after expiry and falls only on `low` after expiry; a running timer's deadline never moves (that it does rise and fall on time is HysteresisDelay and HysteresisFallDelay) |
| Calculate.LatchState.ProcessTime | Build/SDK/01.04.00.0081/include/ecu/calculate.h:46-60 | updates the fields as Approach says |
| Calculate.LatchState.Hysteresis | Build/SDK/01.04.00.0081/include/ecu/calculate.h:40-82 | updates the fields as HysteresisStep says and returns the latch |
| Calculate.LatchState.HysteresisS32 | Build/SDK/01.04.00.0081/include/ecu/calculate.h:40-82 | hysteresis with high = `arg >= high` and low = `arg <= low` |
| Calculate.LatchState.HysteresisF32 | Build/SDK/01.04.00.0081/include/ecu/calculate.h:100-142 | the same over reals |
| Calculate.LatchState.HysteresisS32Init | Build/SDK/01.04.00.0081/include/ecu/calculate.h:84-88 | seeds latch with `arg >= high`, nothing else changes |
| Calculate.LatchState.HysteresisF32Init | Build/SDK/01.04.00.0081/include/ecu/calculate.h:144-148 | seeds latch with `arg >= high` over reals, nothing else changes |
| Calculate.RangeStep | Build/SDK/01.04.00.0081/include/ecu/calculate.h:175-201 | outside the range latch and timing drop at once; a held latch stays; the latch rises only after expiry inside the range |
| Calculate.LatchState.Range | Build/SDK/01.04.00.0081/include/ecu/calculate.h:175-201 | updates the fields as RangeStep says and returns the latch |
| Calculate.LatchState.BetweenS32 | Build/SDK/01.04.00.0081/include/ecu/calculate.h:175-201 | RangeStep with cond = `min <= arg <= max` |
| Calculate.LatchState.BetweenF32 | Build/SDK/01.04.00.0081/include/ecu/calculate.h:219-245 | the same over reals |
| Calculate.LatchState.BetweenS32Init | Build/SDK/01.04.00.0081/include/ecu/calculate.h:203-207 | seeds latch with `min <= arg <= max`, nothing else changes |
| Calculate.LatchState.BetweenF32Init | Build/SDK/01.04.00.0081/include/ecu/calculate.h:247-251 | seeds latch with `min <= arg <= max` over reals, nothing else changes |
| Calculate.LatchState.BeyondS32Init | Build/SDK/01.04.00.0081/include/ecu/calculate.h:307-311 | seeds latch with `arg < min \|\| arg > max`, nothing else changes |
| Calculate.LatchState.BeyondF32Init | Build/SDK/01.04.00.0081/include/ecu/calculate.h:351-355 | seeds latch with `arg < min \|\| arg > max` over reals, nothing else changes |
| Calculate.BeyondS32Step | Build/SDK/01.04.00.0081/include/ecu/calculate.h:278-305 | as written: inside the range everything drops; outside it a set latch is left alone; timing is never left set, so the timer is re-armed on every call |
| Calculate.LatchState.BeyondS32 | Build/SDK/01.04.00.0081/include/ecu/calculate.h:278-305 | updates the fields as BeyondS32Step says |
| Calculate.LatchState.BeyondF32 | Build/SDK/01.04.00.0081/include/ecu/calculate.h:323-349 | RangeStep with cond = `arg < min or arg > max` |
| Calculate.HysteresisDelay | Build/SDK/01.04.00.0081/include/ecu/calculate.h:40-82 | holding `arg >= high` from a low latch sets the latch exactly once the clamped duration has elapsed, and not earlier |
| Calculate.HighFirst | Build/SDK/01.04.00.0081/include/ecu/calculate.h:42-60 | the first high sample arms the timer at `start` |
| Calculate.HighNext | Build/SDK/01.04.00.0081/include/ecu/calculate.h:42-60 | a later high sample keeps the deadline armed at `start` until the latch is set |
| Calculate.HysteresisFallDelay | Build/SDK/01.04.00.0081/include/ecu/calculate.h:20-24 | holding `arg <= low` (below `high`) from a set latch clears the latch exactly once the clamped duration has elapsed, and not earlier; until then the deadline stays the one armed by the first call |
| Calculate.LowFirst | Build/SDK/01.04.00.0081/include/ecu/calculate.h:61-77 | the first low sample arms the timer at `start` and clears the latch iff the duration is 0 |
| Calculate.LowNext | Build/SDK/01.04.00.0081/include/ecu/calculate.h:61-77 | a later low sample clears a waiting latch iff its offset reaches the duration, keeping the deadline otherwise |
| Calculate.RangeDelay | Build/SDK/01.04.00.0081/include/ecu/calculate.h:175-201 | inside the range, the latch is set e ticks after entry exactly when e reaches the clamped duration |
| Calculate.BeyondS32NeverWaits | Build/SDK/01.04.00.0081/include/ecu/calculate.h:288-290 | with a positive duration, no sequence of outside samples ever sets the latch |
| Calculate.BeyondS32Discrepancy | Build/SDK/01.04.00.0081/include/ecu/calculate.h:288-290 | a concrete run where the intended range latch sets and beyond_s32 does not |
| Calculate.StableStep | Build/SDK/01.04.00.0081/include/ecu/calculate.h:379-394 | prev always becomes arg; a change re-arms the timer; with no change, timing stays on only until expiry |
| Calculate.StableDelay | Build/SDK/01.04.00.0081/include/ecu/calculate.h:379-394 | after a change, the value is reported stable e ticks later exactly when e reaches the clamped duration |
| Calculate.StableS32.Update | Build/SDK/01.04.00.0081/include/ecu/calculate.h:379-394 | updates the fields as StableStep says and returns `!timing` |
| Calculate.StableS32.Init | Build/SDK/01.04.00.0081/include/ecu/calculate.h:396-402 | stores prev, arms the timer and sets timing |
| Calculate.MinS32 | Build/SDK/01.04.00.0081/include/ecu/calculate.h:418-421 | result is <= both arguments and is one of them |
| Calculate.MaxS32 | Build/SDK/01.04.00.0081/include/ecu/calculate.h:446-449 | result is >= both arguments and is one of them |
| Calculate.AverageS32 | Build/SDK/01.04.00.0081/include/ecu/calculate.h:474-477 | without overflow, the result lies between the arguments and is their half-sum truncated toward zero |
| Calculate.AverageOverflow | Build/SDK/01.04.00.0081/include/ecu/calculate.h:474-477 | for every a, b whose sum `a + b` overflows s32, the result lies outside [min(a, b), max(a, b)] |
| Calculate.AbsoluteS32 | Build/SDK/01.04.00.0081/include/ecu/calculate.h:500-503 | non-negative and equal to arg or -arg, except that -2^31 maps to itself |
| Calculate.ModuloS32 | Build/SDK/01.04.00.0081/include/ecu/calculate.h:531-534 | C `%`: smaller in magnitude than the divisor, with the dividend's sign, and differing from arg by a multiple of denom |
| Calculate.QuotRem | Build/SDK/01.04.00.0081/include/ecu/calculate.h:531-534 | truncating division leaves a remainder with the dividend's sign and smaller than the divisor |
| Calculate.ModuloSign | Build/SDK/01.04.00.0081/include/ecu/calculate.h:531-534 | for non-negative dividends C `%` agrees with the Euclidean one, and -7 % 3 is -1 in C |
| Change.ConfirmStep | Build/SDK/01.04.00.0078/include/ecu/change.h:42-52 | a running timer keeps its deadline, otherwise one is armed; it fires exactly when expired, and timing stays on exactly when it does not |
| Change.Delta | Build/SDK/01.04.00.0078/include/ecu/change.h:39-40 | the clamped delta is at least 1, and is delta when delta >= 1 |
| Change.UpStep | Build/SDK/01.04.00.0078/include/ecu/change.h:37-66 | fires only at or above the threshold after expiry, then re-bases the threshold; a sample below clears timing and only lowers the threshold |
| Change.DownStep | Build/SDK/01.04.00.0078/include/ecu/change.h:218-247 | the mirror image of UpStep |
| Change.UpImmedStep | Build/SDK/01.04.00.0078/include/ecu/change.h:85-100 | fires iff arg >= thresh, then thresh = arg + delta; otherwise the threshold only ratchets down to min(thresh, arg + delta) |
| Change.DownImmedStep | Build/SDK/01.04.00.0078/include/ecu/change.h:266-281 | fires iff arg <= thresh, then thresh = arg - delta; otherwise it only ratchets up |
| Change.ByStep | Build/SDK/01.04.00.0078/include/ecu/change.h:400-425 | fires only for a distance of at least delta after expiry; prev changes only when it fires |
| Change.ByImmedStep | Build/SDK/01.04.00.0078/include/ecu/change.h:441-452 | fires iff the distance from prev is at least delta; prev is updated only on firing |
| Change.DistanceExact | Build/SDK/01.04.00.0078/include/ecu/change.h:446-447 | without overflow, the distance is the absolute difference |
| Change.DistanceWraps | Build/SDK/01.04.00.0078/include/ecu/change.h:446-447 | the s32 subtraction wraps: 0x7fffffff and -0x7fffffff are at distance 2 |
| Change.ToStep | Build/SDK/01.04.00.0078/include/ecu/change.h:551-575 | stores prev = cond, arms on a rising edge, and fires exactly when cond holds, a rising edge or a running timer is present, and the deadline has expired |
| Change.FromStep | Build/SDK/01.04.00.0078/include/ecu/change.h:626-650 | stores prev = cond, arms on a falling edge, and fires exactly when cond is false, a falling edge or a running timer is present, and the deadline has expired |
| Change.EitherStep | Build/SDK/01.04.00.0078/include/ecu/change.h:700-720 | arms on any edge and fires iff a timer was due and has expired |
| Change.ToImmed | Build/SDK/01.04.00.0078/include/ecu/change.h:590-596 | stores cond and fires exactly on `!prev && cond` |
| Change.FromImmed | Build/SDK/01.04.00.0078/include/ecu/change.h:664-670 | stores cond and fires exactly on `prev && !cond` |
| Change.EitherImmed | Build/SDK/01.04.00.0078/include/ecu/change.h:735-741 | stores cond and fires exactly on `prev != cond` |
| Change.EitherIsToOrFrom | Build/SDK/01.04.00.0078/include/ecu/change.h:735-741 | `either` fires iff `to` or `from` fires, and never both |
| Change.ImmedIsZeroFilter | Build/SDK/01.04.00.0078/include/ecu/change.h:37-100 | with a zero filter, every timed detector behaves as its immed variant |
| Change.UpDelay | Build/SDK/01.04.00.0078/include/ecu/change.h:37-66 | a held rise fires e ticks after it starts exactly when e reaches the clamped duration |
| Change.DownDelay | Build/SDK/01.04.00.0078/include/ecu/change.h:218-247 | a held fall fires e ticks after it starts exactly when e reaches the clamped duration |
| Change.ByDelay | Build/SDK/01.04.00.0078/include/ecu/change.h:400-425 | a held move of at least delta fires e ticks after it starts exactly when e reaches the clamped duration |
| Change.UpOnce | Build/SDK/01.04.00.0078/include/ecu/change.h:50-55 | after firing, the same sample does not fire again |
| Change.SeqMin | Build/SDK/01.04.00.0078/include/ecu/change.h:95-99 | the minimum of a non-empty sequence is an element and below every element |
| Change.UpTracksTrough | Build/SDK/01.04.00.0078/include/ecu/change.h:85-100 | across a run of samples that do not fire, the threshold is the lowest sample so far plus delta |
| Change.TroughNext | Build/SDK/01.04.00.0078/include/ecu/change.h:95-99 | one non-firing sample extends that trough invariant |
| Change.Threshold.ConfirmTime | Build/SDK/01.04.00.0078/include/ecu/change.h:42-52 | updates timing and expire as ConfirmStep says |
| Change.Threshold.Up | Build/SDK/01.04.00.0078/include/ecu/change.h:37-66 | updates the fields as UpStep says and returns its verdict |
| Change.Threshold.UpInit | Build/SDK/01.04.00.0078/include/ecu/change.h:68-75 | thresh = arg + clamped delta |
| Change.Threshold.Down | Build/SDK/01.04.00.0078/include/ecu/change.h:218-247 | updates the fields as DownStep says |
| Change.Threshold.DownInit | Build/SDK/01.04.00.0078/include/ecu/change.h:249-256 | thresh = arg - clamped delta |
| Change.ImmedThreshold.Up | Build/SDK/01.04.00.0078/include/ecu/change.h:85-100 | updates thresh as UpImmedStep says |
| Change.ImmedThreshold.UpInit | Build/SDK/01.04.00.0078/include/ecu/change.h:102-108 | thresh = arg + clamped delta |
| Change.ImmedThreshold.Down | Build/SDK/01.04.00.0078/include/ecu/change.h:266-281 | updates thresh as DownImmedStep says |
| Change.ImmedThreshold.DownInit | Build/SDK/01.04.00.0078/include/ecu/change.h:283-289 | thresh = arg - clamped delta |
| Change.ByS32.Update | Build/SDK/01.04.00.0078/include/ecu/change.h:400-425 | updates the fields as ByStep says |
| Change.ByS32.Init | Build/SDK/01.04.00.0078/include/ecu/change.h:427-431 | prev = arg |
| Change.ByImmedS32.Update | Build/SDK/01.04.00.0078/include/ecu/change.h:441-452 | updates prev as ByImmedStep says |
| Change.ByImmedS32.Init | Build/SDK/01.04.00.0078/include/ecu/change.h:454-457 | prev = arg |
| Change.EdgeState.To | Build/SDK/01.04.00.0078/include/ecu/change.h:551-575 | updates the fields as ToStep says |
| Change.EdgeState.From | Build/SDK/01.04.00.0078/include/ecu/change.h:626-650 | updates the fields as FromStep says |
| Change.EdgeState.Either | Build/SDK/01.04.00.0078/include/ecu/change.h:700-720 | updates the fields as EitherStep says |
| Change.EdgeState.Init | Build/SDK/01.04.00.0078/include/ecu/change.h:577-580 | prev = cond |
| Change.EdgeImmed.To | Build/SDK/01.04.00.0078/include/ecu/change.h:590-596 | as ToImmed: stores cond, and fires exactly on a rising edge `!prev && cond` |
| Change.EdgeImmed.From | Build/SDK/01.04.00.0078/include/ecu/change.h:664-670 | as FromImmed: stores cond, and fires exactly on a falling edge `prev && !cond` |
| Change.EdgeImmed.Either | Build/SDK/01.04.00.0078/include/ecu/change.h:735-741 | as EitherImmed: stores cond, and fires exactly on any change `prev != cond` |
| Change.EdgeImmed.Init | Build/SDK/01.04.00.0078/include/ecu/change.h:598-601 | prev = cond |
| Change.ToOnce | Build/SDK/01.04.00.0078/include/ecu/change.h:551-575 | after `to` fires, the next call does not fire |
| Change.FromOnce | Build/SDK/01.04.00.0078/include/ecu/change.h:604-650 | after `from` fires, the next call does not fire, so a falling edge is reported for one iteration |
| Change.ToDelay | Build/SDK/01.04.00.0078/include/ecu/change.h:551-575 | a held rising edge fires e ticks later exactly when e reaches the clamped duration |
| Change.FromDelay | Build/SDK/01.04.00.0078/include/ecu/change.h:626-650 | a held falling edge fires e ticks later exactly when e reaches the clamped duration |
| Delay.RisingStep | Build/SDK/01.04.00.0087/include/ecu/delay.h:35-55 | prev = cond; re-arms only on a rising edge; `!cond` drops the latch; with cond the latch holds or rises on expiry |
| Delay.FallingStep | Build/SDK/01.04.00.0087/include/ecu/delay.h:87-107 | prev = cond; re-arms only on a falling edge; cond forces the latch; without cond it drops only on expiry |
| Delay.RisingDelay | Build/SDK/01.04.00.0017/include/ecu/delay.h:36-56 | after a rising edge the output rises e ticks later exactly when e reaches the clamped delay |
| Delay.FallingDelay | Build/SDK/01.04.00.0017/include/ecu/delay.h:90-110 | after a falling edge the output falls e ticks later exactly when e reaches the clamped delay |
| Delay.FallingIsRisingNegated | Build/SDK/01.04.00.0087/include/ecu/delay.h:87-107 | delay_falling is delay_rising on the negated condition and negated state |
| Delay.DelayedState.Rising | Build/SDK/01.04.00.0087/include/ecu/delay.h:35-55 | updates the fields as RisingStep says and returns the latch |
| Delay.DelayedState.Falling | Build/SDK/01.04.00.0087/include/ecu/delay.h:87-107 | updates the fields as FallingStep says and returns the latch |
| Delay.DelayedState.Init | Build/SDK/01.04.00.0087/include/ecu/delay.h:57-61 | prev = latch = cond, expire untouched |
| Delay.StableStep | Build/SDK/01.04.00.0087/include/ecu/delay.h:178-196 | a change stores prev, re-arms and clears stable; no change keeps stable or sets it on expiry |
| Delay.StableDelay | Build/SDK/01.04.00.0017/include/ecu/delay.h:182-200 | after a change the value is stable e ticks later exactly when e reaches the clamped delay, and a stable value stays stable |
| Delay.StableS32.Update | Build/SDK/01.04.00.0087/include/ecu/delay.h:178-196 | StableStep with change = `arg != prev` |
| Delay.StableS32.Init | Build/SDK/01.04.00.0087/include/ecu/delay.h:199-204 | prev = arg, stable set |
| Delay.StableF32.Update | Build/SDK/01.04.00.0087/include/ecu/delay.h:141-158 | StableStep with change = a move of more than delta |
| Delay.StableF32.Init | Build/SDK/01.04.00.0087/include/ecu/delay.h:161-166 | prev = arg, stable set |
| Delay.SignalLine.Init | Build/SDK/01.04.00.0087/include/ecu/delay.h:239-245 | line[0] = {arg, SCALE}, head = 1, nothing else changes |
| Delay.Signal15.Init | Build/SDK/01.04.00.0017/include/ecu/delay.h:238-242 | only line[0] = arg |
| Debounce.StableStep | Build/SDK/01.04.00.0071/include/ecu/debounce.h:35-52 | an unchanged input resets expire to 0; a change starts the timer once, and the value is adopted only on expiry |
| Debounce.StableDelay | Build/SDK/01.04.00.0071/include/ecu/debounce.h:35-52 | a held change is adopted e ticks later exactly when e reaches the filter |
| Debounce.StableRestart | Build/SDK/01.04.00.0071/include/ecu/debounce.h:39-46 | a reverting input restarts the filter from scratch |
| Debounce.StableState.Update | Build/SDK/01.04.00.0071/include/ecu/debounce.h:35-52 | updates the fields as StableStep says and returns cond |
| Debounce.StableState.Init | Build/SDK/01.04.00.0071/include/ecu/debounce.h:54-57 | cond = input |
| Debounce.FastStep | Build/SDK/01.04.00.0071/include/ecu/debounce.h:81-99 | during the lockout the state is frozen; otherwise the input is adopted at once and a change starts a lockout |
| Debounce.VerifyStep | Build/SDK/01.04.00.0071/include/ecu/debounce.h:133-151 | a differing input starts the timer; on expiry the input present then is adopted |
| Debounce.FastLockout | Build/SDK/01.04.00.0071/include/ecu/debounce.h:81-99 | after a change is adopted, inputs are ignored for exactly the filter duration |
| Debounce.VerifyDelay | Build/SDK/01.04.00.0071/include/ecu/debounce.h:133-151 | after a change, the input is sampled once the filter duration has passed, and not earlier |
| Debounce.TimedState.Fast | Build/SDK/01.04.00.0071/include/ecu/debounce.h:81-99 | updates the fields as FastStep says |
| Debounce.TimedState.FastInit | Build/SDK/01.04.00.0071/include/ecu/debounce.h:101-108 | cond = input, timing set, deadline armed |
| Debounce.TimedState.Verify | Build/SDK/01.04.00.0071/include/ecu/debounce.h:133-151 | updates the fields as VerifyStep says |
| Debounce.TimedState.VerifyInit | Build/SDK/01.04.00.0071/include/ecu/debounce.h:153-157 | cond = input |
| Convert.IntegerU32 | Build/SDK/01.04.00.0106/include/ecu/convert.h:35-40 | values with bit 31 clear pass through, others saturate to 0x7fffffff |
| Convert.UnsignedS32 | Build/SDK/01.04.00.0106/include/ecu/convert.h:74-77 | positive values pass through, others give 0 |
| Convert.RoundTrip | Build/SDK/01.04.00.0049/include/ecu/convert.h:35-69 | the two conversions invert each other on [0, 0x7fffffff] |
| Convert.SaturationLoses | Build/SDK/01.04.00.0106/include/ecu/convert.h:35-40 | the round trip returns x exactly when x <= 0x7fffffff, and less otherwise |
| Convert.IntegerS32e7 | Build/SDK/01.04.00.0106/include/ecu/convert.h:45-48 | the s32e7 bit pattern is returned unchanged as an s32 |
| Convert.S32e7 | Build/SDK/01.04.00.0106/include/ecu/convert.h:90-93 | the s32 is returned unchanged as an s32e7, so the caller supplies the 10^7 scale |
| BitMask.Mask | Build/SDK/01.04.00.0062/include/ecu/types.h:159 | __mask(len) is 2^len - 1 |
| BitMask.Get | Build/SDK/01.04.00.0062/include/ecu/types.h:161-163 | the field read is below 2^len |
| BitMask.Set | Build/SDK/01.04.00.0062/include/ecu/types.h:165-168 | the bits below the field are those of chan (the rest of its meaning is GetSet, SetGet, SetSet and SetFrame) |
| BitMask.GetSet | Build/SDK/01.04.00.0062/include/ecu/types.h:161-168 | reading a field just written gives the value masked to len bits |
| BitMask.SetGet | Build/SDK/01.04.00.0062/include/ecu/types.h:161-168 | writing back a field just read changes nothing |
| BitMask.SetSet | Build/SDK/01.04.00.0062/include/ecu/types.h:165-168 | the second write to a field wins |
| BitMask.SetFrame | Build/SDK/01.04.00.0062/include/ecu/types.h:165-168 | a write leaves the bits below and above the field unchanged |
| BitMask.FieldPastTheWord | Build/SDK/01.04.00.0062/include/ecu/types.h:161-168 | a field running past bit 31 is cut short |
| FloatBits.IsInf | Build/SDK/01.04.00.0099/include/math.h:11 | exponent all ones and fraction zero |
| FloatBits.IsNan | Build/SDK/01.04.00.0099/include/math.h:13 | exponent all ones and fraction non-zero |
| FloatBits.IsNormal | Build/SDK/01.04.00.0099/include/math.h:15 | exponent in 1..254 |
| FloatBits.IsFinite | Build/SDK/01.04.00.0099/include/math.h:17-24 | exponent below 255, except that FLT_MAX's pattern counts as not finite |
| FloatBits.SignIgnored | Build/SDK/01.04.00.0099/include/math.h:11-24 | all four predicates ignore the sign bit |
| FloatBits.Exclusive | Build/SDK/01.04.00.0099/include/math.h:11-24 | inf and NaN exclude each other, finite excludes both, normal implies finite except at FLT_MAX |
| FloatBits.NotNormal | Build/SDK/01.04.00.0099/include/math.h:15 | zeros, subnormals, infinities and NaNs are not normal |
| FloatBits.Examples | Build/SDK/01.04.00.0099/include/math.h:11-24 | the classification of 0, the smallest normal, FLT_MAX, ±inf and a quiet NaN |
| Switch.SetAt | Build/SDK/01.04.00.0051/include/ecu/switch.h:26-36 | the entry at idx becomes val and every other entry is kept |
| Switch.SetAtLastWins | Build/SDK/01.04.00.0051/include/ecu/switch.h:26-36 | two writes to one index leave the second value |
| Switch.SetAtCommutes | Build/SDK/01.04.00.0051/include/ecu/switch.h:26-36 | writes to different indices commute |
| Switch.SetAtSame | Build/SDK/01.04.00.0051/include/ecu/switch.h:26-57 | writing back the value just read changes nothing |
| Switch.Switches.constructor | Build/SDK/01.04.00.0051/include/ecu/switch.h:12-14 | a table of exactly 64 zero entries |
| Switch.Switches.Set | Build/SDK/01.04.00.0051/include/ecu/switch.h:26-36 | the array becomes SetAt of its old contents |
| Switch.Switches.Get | Build/SDK/01.04.00.0051/include/ecu/switch.h:47-57 | returns switches[idx] |
| Xdc.GetUnsigned | Build/SDK/01.04.00.0104/include/ecu/xdc.h:70-83 | 0 for a bad message or offset; a byte or 16-bit word otherwise |
| Xdc.GetSigned | Build/SDK/01.04.00.0104/include/ecu/xdc.h:91-104 | 0 for a bad message or offset; a signed byte or word otherwise |
| Xdc.SignedIsSignExtended | Build/SDK/01.04.00.0104/include/ecu/xdc.h:70-104 | the signed view is the sign extension of the unsigned view |
| Xdc.WordOverlaysBytes | Build/SDK/01.04.00.0104/include/ecu/xdc.h:12-21 | word off is bytes 2*off (high) and 2*off+1 (low), big-endian |
| Xdc.RxStep | Build/SDK/01.04.00.0104/include/ecu/xdc.h:52-62 | the time stamp is kept, or cleared exactly when it is 0 or ticks_since saturates |
| Xdc.RecentKept | Build/SDK/01.04.00.0104/include/ecu/xdc.h:52-62 | a message younger than 0x7fffffff ticks keeps its stamp |
| Xdc.StaleCleared | Build/SDK/01.04.00.0104/include/ecu/xdc.h:52-62 | a message of 0x7fffffff ticks or older is cleared |
| Xdc.XdcState.RxTicks | Build/SDK/01.04.00.0104/include/ecu/xdc.h:52-62 | stores and returns RxStep's stamp, leaving the messages alone |
| CanTypes.ExtId | Build/SDK/01.04.00.0093/include/motec/shared/protocol/can_types.h:44-58 | the 29-bit field never exceeds CAN_EXT_MAX |
| CanTypes.StdId | Build/SDK/01.04.00.0093/include/motec/shared/protocol/can_types.h:44-58 | the 11-bit field never exceeds CAN_STD_MAX |
| CanTypes.SetStd | Build/SDK/01.04.00.0093/include/motec/shared/protocol/can_types.h:201-202 | for v <= 0x7FF: type STD, no remote request, and v in the standard field |
| CanTypes.SetExt | Build/SDK/01.04.00.0093/include/motec/shared/protocol/can_types.h:203-204 | for v <= 0x1FFFFFFF: type EXT, no remote request, and v in the extended field |
| CanTypes.IsUnused | Build/SDK/01.04.00.0093/include/motec/shared/protocol/can_types.h:211 | true exactly when the type bits are unused, the remote-request flag is clear and the id bits are 0 |
| CanTypes.IsStd | Build/SDK/01.04.00.0093/include/motec/shared/protocol/can_types.h:212-213 | iff the type bits are STD |
| CanTypes.IsExt | Build/SDK/01.04.00.0093/include/motec/shared/protocol/can_types.h:214-215 | iff the type bits are EXT |
| CanTypes.Get | Build/SDK/01.04.00.0093/include/motec/shared/protocol/can_types.h:269-271 | the identifier is within the range of its type |
| CanTypes.MaskStd | Build/SDK/01.04.00.0093/include/motec/shared/protocol/can_types.h:207-208 | for an id in the standard range the mask has mask type MATCH, no remote-request bit, its standard id field equal to v, and no other bit set |
| CanTypes.MaskExt | Build/SDK/01.04.00.0093/include/motec/shared/protocol/can_types.h:209 | for an id in the extended range the mask has mask type MATCH, no remote-request bit, and its extended id field equal to v |
| CanTypes.FilterMatch | Build/SDK/01.04.00.0093/include/motec/shared/protocol/can_types.h:231-255 | a plain hit accepts; a plain miss rejects unless advanced; an advanced accept is a J1939 extended data frame with another source address or PF 0xEE |
| CanTypes.FilterValid | Build/SDK/01.04.00.0093/include/motec/shared/protocol/can_types.h:257-266 | iff the filter is advanced or its mask type is MATCH or IGNORE |
| CanTypes.StdRoundTrip | Build/SDK/01.04.00.0093/include/motec/shared/protocol/can_types.h:201-271 | a packed standard id is STD only, and CAN_ID_GET returns v |
| CanTypes.ExtRoundTrip | Build/SDK/01.04.00.0093/include/motec/shared/protocol/can_types.h:203-271 | a packed extended id is EXT only, and CAN_ID_GET returns v |
| CanTypes.UnusedIsNeither | Build/SDK/01.04.00.0093/include/motec/shared/protocol/can_types.h:205-215 | CAN_ID_SET_UNUSED is unused, neither STD nor EXT |
| CanTypes.StdPastMax | Build/SDK/01.04.00.0093/include/motec/shared/protocol/can_types.h:201-202 | an 11-bit overflow spills into the remote-request bit |
| CanTypes.StdAlignedToExt | Build/SDK/01.04.00.0093/include/motec/shared/protocol/can_types.h:44-58 | the standard field is the top 11 bits of the 29-bit field |
| CanTypes.AgreementAccepted | Build/SDK/01.04.00.0093/include/motec/shared/protocol/can_types.h:233-234 | an id agreeing with match on the unmasked bits is accepted |
| CanTypes.PlainAcceptsAgreement | Build/SDK/01.04.00.0093/include/motec/shared/protocol/can_types.h:233-236 | a non-advanced filter accepts only ids agreeing with match on the unmasked bits |
| CanTypes.FilterExtremes | Build/SDK/01.04.00.0093/include/motec/shared/protocol/can_types.h:233-234 | a filter accepts its own match value, and an all-ones mask accepts everything |
| CanTypes.ExactFilter | Build/SDK/01.04.00.0093/include/motec/shared/protocol/can_types.h:233-236 | a non-advanced filter with mask 0 accepts its match value only |
| CanTypes.J1939Filter | Build/SDK/01.04.00.0093/include/motec/shared/protocol/can_types.h:238-251 | on a plain miss, J1939 accepts iff extended, not remote, and either another source address or PF 0xEE |
| CanTypes.UnknownProtocol | Build/SDK/01.04.00.0093/include/motec/shared/protocol/can_types.h:252-253 | an unknown advanced protocol accepts only plain hits |
| CanTx.MessageWindow | Build/SDK/01.04.00.0105/include/ecu/can_tx.h:69-71 | bitlen = 8 * len inside 64 bits, at offset 0 for big endian and right-aligned otherwise |
| CanTx.InitStep | Build/SDK/01.04.00.0105/include/ecu/can_tx.h:56-72 | a bad handle or magic leaves the state alone; otherwise msg is cleared and the window set |
| CanTx.InitIdempotent | Build/SDK/01.04.00.0016/include/ecu/can_tx.h:60-70 | init twice is init once, and handle validity is kept |
| CanTx.InitForgets | Build/SDK/01.04.00.0016/include/ecu/can_tx.h:68-70 | on a valid handle the result depends only on magic, byte order and length |
| CanTx.TxState.Open | Build/SDK/01.04.00.0105/include/ecu/can_tx.h:35-42 | returns the same state with the message window zeroed |
| CanTx.TxState.Init | Build/SDK/01.04.00.0105/include/ecu/can_tx.h:56-72 | updates the fields as InitStep says |
| Table.IndexLast | Build/SDK/01.04.00.0060/include/ecu/table.h:11-16 | the axis rises strictly up to the last index, and the next slope is <= 0 or the axis ends |
| Table.Rising | Build/SDK/01.04.00.0060/include/ecu/table.h:11-16 | sites up to the last used index are strictly increasing |
| Table.TruncatedSitesUnused | Build/SDK/01.04.00.0060/include/ecu/table.h:14-16 | sites past the truncation point do not change the last index |
| Table.AxisMin | Build/SDK/01.04.00.0060/include/ecu/table.h:64-76 | the axis minimum is at most the maximum, and below it when two sites are used |
| Table.AxisMax | Build/SDK/01.04.00.0060/include/ecu/table.h:71-76 | the upper limit is a site of the axis and no used site lies above it |
| Table.CheckedAxisBrackets | Build/SDK/01.04.00.0060/include/ecu/table.h:44-45 | on an axis passing CHECK_AXIS_F32_CFG (at least two sites) every position reads two existing sites |
| Table.AxisPosition | Build/SDK/01.04.00.0060/include/ecu/table.h:404-412 | the index lies before the last used site and the ratio is measured from the lowest site used; with no valid segment the result is (0, 0), a choice of this model (see "## Left out") |
| Table.PositionMeaning | Build/SDK/01.04.00.0060/include/ecu/table.h:404-412 | the ratio rebuilds x from the bracketing sites; below the minimum index 0 and ratio < 0; above the maximum the last segment and ratio > 1; inside, 0..1 |
| Table.Interpolate | Build/SDK/01.04.00.0060/include/ecu/table.h:18-20 | with no valid points the first site's value is returned |
| Table.InterpolateAtSite | Build/SDK/01.04.00.0060/include/ecu/table.h:11-20 | at a used site the row's value there is returned |
| Table.InterpolateIgnoresUnused | Build/SDK/01.04.00.0060/include/ecu/table.h:14-16 | values at unused sites never affect the result |
| Table.OffsetLayout | Build/SDK/01.04.00.0060/include/ecu/table.h:120-134 | the flat offset lies inside the body, and x varies fastest |
| Table.OffsetInjective | Build/SDK/01.04.00.0060/include/ecu/table.h:120-134 | distinct in-range cells have distinct offsets |
| Table.SetThenGet | Build/SDK/01.04.00.0060/include/ecu/table.h:490-501 | after a set, the cell reads the new value and every other cell its old one |
| Table.AxisState.constructor | Build/SDK/01.04.00.0060/include/ecu/table.h:34-40 | the cached position starts at (0, 0) |
| Table.AxisState.Update | Build/SDK/01.04.00.0060/include/ecu/table.h:404-412 | stores the position of x as AxisPosition says |
| Table.AxisState.IndexCached | Build/SDK/01.04.00.0060/include/ecu/table.h:381-385 | returns the stored index |
| Table.AxisState.PositionCached | Build/SDK/01.04.00.0060/include/ecu/table.h:421-425 | returns the stored ratio |
| Table.IndexFirst | Build/SDK/01.04.00.0060/include/ecu/table.h:391-395 | index 0, which is within every axis and holds its minimum |
| Table.Body.constructor | Build/SDK/01.04.00.0060/include/ecu/table.h:120-134 | a flat body of sizeX * sizeY * sizeZ cells |
| Table.Body.Get | Build/SDK/01.04.00.0060/include/ecu/table.h:427-438 | returns the cell at the flat offset of (x, y, z) |
| Table.Body.Set | Build/SDK/01.04.00.0060/include/ecu/table.h:490-501 | changes exactly the cell at the flat offset of (x, y, z) |
| Table.Body.Preset | Build/SDK/01.04.00.0060/include/ecu/table.h:535-546 | every cell becomes val |
| Table.Body.GetCached0 | Build/SDK/01.04.00.0060/include/ecu/table.h:444-449 | body_get at the three cached lookup indices |
| Table.Body.GetCached1 | Build/SDK/01.04.00.0060/include/ecu/table.h:451-456 | body_get at the cached x axis index and y, z lookup indices |
| Table.Body.GetCached2 | Build/SDK/01.04.00.0060/include/ecu/table.h:458-463 | body_get at the cached x, y axis indices and z lookup index |
| Table.Body.GetCached3 | Build/SDK/01.04.00.0060/include/ecu/table.h:465-470 | body_get at the three cached axis indices |
| Table.Body.SetCached0 | Build/SDK/01.04.00.0060/include/ecu/table.h:507-512 | body_set at the three cached lookup indices |
| Table.Body.SetCached1 | Build/SDK/01.04.00.0060/include/ecu/table.h:514-519 | body_set at the cached x axis index and y, z lookup indices |
| Table.Body.SetCached2 | Build/SDK/01.04.00.0060/include/ecu/table.h:521-526 | body_set at the cached x, y axis indices and z lookup index |
| Table.Body.SetCached3 | Build/SDK/01.04.00.0060/include/ecu/table.h:528-533 | body_set at the three cached axis indices |

## Left out

- The f32 change detectors (`change_up_f32` and the other f32 variants) are not modelled. They repeat the s32 logic over floats, with delta clamped at 0 instead of 1.
- `debounce_filter` is left out. It is a floating-point filter driven by elapsed time.
- The bodies of `delay_signal*_f32` are not shown in the headers, so only their `_init` is modelled.
- The interpolation kernels `interp_0a..3a_f32`, `reverse_x_1a_f32`, `body_adjust*` and `table_hash_*` are declarations only. The one-axis `Table.Interpolate` is a reference definition built from the documented axis rules.
- The effect of the `AXIS_F32_FLAG_*` flags is not stated in the headers and is not modelled.
- `index_last` caching, `axis_get_f32` and `axis_get_cached_f32` are not modelled.
- `axis_min_s32` and `axis_max_s32` are not modelled, nor the lookup-axis index mapping from `lookup_s32_cfg.min`. `Table.LookupCfgChecked` only states the build-time check CHECK_LOOKUP_S32_CFG as a predicate; nothing in the model uses it.
- `Table.AxisState.Update` does not say whether `axis_position_f32` and `axis_index_f32` refresh the cache. It states the cached value after an update.
- Table values are `real`: f32 rounding of ratios and interpolation is not modelled.
- Hardware reads are parameters:
  - the time-base registers behind `ticks_u32` and `hr_ticks_u32`;
  - `tick_period_f32`;
  - the `efsctsi`/`efsctui` conversions;
  - `verbose.h`.
- `SystemTicks.ReadTicks`: the register reads are a sequence of samples. The model does not say when the loop ends beyond "at the first consistent sample".
- `Timer.CountDown.Remaining` returns remaining ticks times the period. The f32 division and multiplication are not modelled.
- `SystemTicks.ElapsedTime.Elapsed`: the tick period is a positive parameter, and the f32 product is modelled as a real one.
- `Switch.Switches.Set` and `Switch.Switches.Get` require `idx < 64`. An out-of-range index at run time logs an error and still writes or reads outside the array, which has no defined meaning to model.
- `Table.Body.Set` and `Table.Body.Get` require in-range indices. The bounds handling of the extern body functions is not shown.
- `CanTx.TxState.Init`: the `[__bss, __ebss)` test on the handle's address becomes a boolean parameter. The log messages that differ between the 0016 and 0105 copies are left out.
- `CanTx.TxState.Open` does not model `cancomms_tx_open_init`, which is an extern.
- The byte order passed to open is not stored by `CanTx.TxState.Open`: the extern that stores it is not shown.
- `xdc_init` and `xdc_process` are declarations only. The message buffer is the state's `m` field.
- The `pdm.h` driver is not part of this model. Its `input > ARRAY_SIZE` guard admits one index past the end (Build/SDK/01.04.00.0051/include/ecu/pdm.h:53 and 141).
- Debounce filters are not clamped in the source. A negative filter arms a deadline in the past, and the model keeps that.
- Calculate.ModuloS32: requires `denom != 0`, because `arg % 0` is undefined in C. The model returns 0 for `-2^31 % -1`, whose quotient overflows s32, which C also leaves undefined.
- Table.IndexLast, Table.AxisPosition, Table.AxisMin and Table.AxisMax are reconstructions of the extern functions `axis_index_last_f32`, `axis_position_f32`/`axis_index_f32`, `axis_min_f32` and `axis_max_f32`, whose bodies are not shown. They are built from the header comments. Two results are choices of this model and not stated in the headers: the position (0, 0) on an axis with no valid segment, and Table.Interpolate's linear extrapolation past both ends of the axis.
- BitMask.Mask requires `len < 32`: `__mask(32)` shifts the `int` 1 by 32 places, which is undefined in C, so the model has no value for it.
- Concurrency, threads and the other driver headers are not part of this model.

## Findings

| source | as written | input that shows it | evidently intended | confidence | as-written member | corrected member |
|---|---|---|---|---|---|---|
| Build/SDK/01.04.00.0081/include/ecu/calculate.h:288-290 | `calculate_beyond_s32` sets `timing = true` and clears it on the next line, so every call re-arms the timer and the latch never sets for a positive filter | state zeroed, filter of 10 ticks, arg outside [min, max] at ticks 0 and 10: the latch stays false | latch once the argument has stayed outside for the filter time, as `calculate_beyond_f32` (calculate.h:333-335) does | high (not executed) | Calculate.BeyondS32NeverWaits | Calculate.RangeDelay |
