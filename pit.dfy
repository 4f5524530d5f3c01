/**
 * The integer arithmetic of the Programmable Interval Timer driver, `src/drivers/pit.rs`:
 * the reload value for a requested interrupt frequency, the tick length in nanoseconds for
 * a reload value, and the two bytes the reload value is sent as. The PIT's input clock runs
 * at 3579545 / 3 Hz (about 1.193182 MHz); the driver works with the numerator 3579545 and
 * multiplies the other side by 3.
 */
module Pit {
  import opened Wrappers
  import opened Arithmetic

  /** `u64::MAX + 1`. */
  const U64_LIMIT: nat := 0x1_0000_0000_0000_0000

  /** `u32::MAX + 1`. */
  const U32_LIMIT: nat := 0x1_0000_0000

  /** Three times the PIT's input frequency, in Hz. */
  const BASE_TIMES_THREE: nat := 3579545

  /** The frequency `init` asks for: one interrupt per millisecond. */
  const INIT_FREQUENCY: nat := 1000

  /** The largest reload value `init` accepts. */
  const INIT_RELOAD_LIMIT: nat := 0x1000

  /**
   * `divide_rounded`: `num / denom` rounded to the nearest integer, halves rounded up. Both
   * the result and the sum `num + denom / 2` are exact: callers here never come near
   * `u64::MAX`.
   */
  function DivideRounded(num: nat, denom: nat): (r: nat)
    requires denom > 0
    ensures r * denom <= num + denom / 2 < r * denom + denom
    ensures 2 * (r * denom) <= 2 * num + denom && 2 * num <= 2 * (r * denom) + denom
  {
    DivisionBracket(num + denom / 2, denom);
    (num + denom / 2) / denom
  }

  /**
   * A quotient `q` whose multiple `q * d` is no further from `n` than half of `d` on the low
   * side and strictly less than half on the high side is the rounded quotient.
   */
  lemma {:induction false} RoundingIsUnique(n: nat, d: nat, q: nat)
    requires d > 0
    requires q * d <= n + d / 2 < q * d + d
    ensures q == DivideRounded(n, d)
  {
    var r := DivideRounded(n, d);
    if q < r {
      MultiplyStep(q, r, d);
    } else if r < q {
      MultiplyStep(r, q, d);
    }
  }

  /**
   * `freq_to_reload_value`: the count the PIT divides its input clock by to interrupt
   * `freq` times a second. At or below 18 Hz it is the largest count, 0x10000; at or above
   * the input frequency it is 1; otherwise it is the input frequency divided by `freq`,
   * rounded.
   */
  function FreqToReloadValue(freq: nat): (r: nat)
    requires freq < U64_LIMIT
  {
    if freq <= 18 then 0x10000
    else if freq >= 1193181 then 1
    else DivideRounded(BASE_TIMES_THREE, 3 * freq)
  }

  /**
   * Every reload value lies within the bounds of the two clamping branches, so it fits the
   * PIT's 16-bit counter, where 0 stands for 0x10000.
   */
  lemma {:induction false} ReloadValueInRange(freq: nat)
    requires freq < U64_LIMIT
    ensures 1 <= FreqToReloadValue(freq) <= 0x10000
  {
    if 18 < freq < 1193181 {
      var d := 3 * freq;
      var r := DivideRounded(BASE_TIMES_THREE, d);
      assert 57 <= d <= 3579540;
      if r > 0x10000 {
        MultiplyMonotone(0x10001, r, d);
        assert false;
      }
    }
  }

  /**
   * Between the two clamps the reload value is the whole count nearest to the exact count
   * 3579545 / (3 * freq): |r * 3 * freq - 3579545| <= 3 * freq / 2. This is the nearest
   * count, not always the count whose frequency is nearest to `freq`.
   */
  lemma ReloadValueIsNearest(freq: nat)
    requires 18 < freq < 1193181
    ensures var r := FreqToReloadValue(freq);
            2 * (r * (3 * freq)) <= 2 * BASE_TIMES_THREE + 3 * freq
            && 2 * BASE_TIMES_THREE <= 2 * (r * (3 * freq)) + 3 * freq
  {
  }

  /**
   * `reload_value_to_ns` in a debug build: 3 * rl * 10^9 / 3579545 nanoseconds, rounded;
   * `None` where the build panics, when the `u64` arithmetic overflows or the result does
   * not fit a `u32`.
   */
  function ReloadValueToNs(rl: nat): (r: Option<nat>)
    requires rl < U64_LIMIT
    ensures r.Some? ==> r.value < U32_LIMIT
    ensures r.Some? ==> r.value == DivideRounded(3 * rl * 1_000_000_000, BASE_TIMES_THREE)
  {
    var num := 3 * rl * 1_000_000_000;
    if num >= U64_LIMIT || num + BASE_TIMES_THREE / 2 >= U64_LIMIT then None
    else
      var ns := DivideRounded(num, BASE_TIMES_THREE);
      if ns < U32_LIMIT then Some(ns) else None
  }

  /** For every reload value `freq_to_reload_value` can return, the tick length fits a `u32`. */
  lemma {:induction false} TickLengthFits(rl: nat)
    requires 1 <= rl <= 0x10000
    ensures ReloadValueToNs(rl).Some?
  {
    var num := 3 * rl * 1_000_000_000;
    assert num <= 3 * 0x10000 * 1_000_000_000 by { MultiplyMonotone(rl, 0x10000, 3_000_000_000); }
    var ns := DivideRounded(num, BASE_TIMES_THREE);
    assert ns * BASE_TIMES_THREE <= num + BASE_TIMES_THREE / 2;
  }

  /**
   * `init`: for 1000 Hz the reload value is 1193, within the limit of 0x1000 its assertion
   * checks, and the tick lasts 999848 ns.
   */
  lemma InitReloadValue()
    ensures FreqToReloadValue(INIT_FREQUENCY) == 1193 <= INIT_RELOAD_LIMIT
    ensures ReloadValueToNs(1193) == Some(999848)
  {
    RoundingIsUnique(BASE_TIMES_THREE, 3 * INIT_FREQUENCY, 1193);
    RoundingIsUnique(3 * 1193 * 1_000_000_000, BASE_TIMES_THREE, 999848);
  }

  /**
   * The `u16` `init` hands to `set_reload_value`: the reload value truncated to 16 bits, so
   * 0x10000 becomes 0.
   */
  function ReloadRegister(rl: nat): (v: bv16)
    requires rl < U64_LIMIT
  {
    (rl % 0x1_0000) as bv16
  }

  /**
   * The PIT reads a count of 0 as 0x10000, so for every reload value in range the counter
   * runs for exactly the reload value.
   */
  lemma RegisterCountsReloadValue(rl: nat)
    requires 1 <= rl <= 0x10000
    ensures (if ReloadRegister(rl) == 0 then 0x10000 else ReloadRegister(rl) as int) == rl
  {
  }

  /** `set_reload_value`: the low byte is sent first, then the high byte. */
  function ReloadBytes(data: bv16): (bytes: (bv8, bv8))
  {
    ((data & 0xFF) as bv8, ((data >> 8) & 0xFF) as bv8)
  }

  /** The two bytes sent rebuild the 16-bit reload value. */
  lemma ReloadBytesRoundTrip(data: bv16)
    ensures var (lo, hi) := ReloadBytes(data);
            ((hi as bv16) << 8) | (lo as bv16) == data
  {
  }
}
