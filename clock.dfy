/**
 * The Arduino `millis()` counter: an `unsigned long` (32 bits on the ESP32) that wraps
 * after about 49.7 days.  Every timeout in the firmware is a subtraction of two such
 * readings, so the model keeps the wrap-around explicit.
 */
module Clock {
  const WRAP: int := 0x1_0000_0000

  /** A reading of the millisecond counter, or any other `unsigned long` value. */
  type Millis = x: int | 0 <= x < WRAP

  /** An 8-bit unsigned counter (`uint8_t`). */
  type Byte = x: int | 0 <= x < 256

  /** A 16-bit signed value (`int16_t`), as the modem reports its signal quality. */
  type Int16 = x: int | -0x8000 <= x < 0x8000

  /** `x++` on a `uint8_t`. */
  function Inc8(x: Byte): (r: Byte)
    ensures x < 255 ==> r == x + 1
    ensures x == 255 ==> r == 0
  {
    (x + 1) % 256
  }

  /** `t + d` computed in `unsigned long`. */
  function Add(t: Millis, d: nat): Millis
  {
    (t + d) % WRAP
  }

  /** `now - since` computed in `unsigned long`: the time elapsed since `since`, modulo 2^32. */
  function Elapsed(now: Millis, since: Millis): Millis
  {
    (now - since) % WRAP
  }

  /** A reading taken `d` milliseconds after `t` sees exactly `d` elapsed, across a wrap as well. */
  lemma ElapsedAfterAdd(t: Millis, d: nat)
    requires d < WRAP
    ensures Elapsed(Add(t, d), t) == d
  {
  }

  /**
   * A reading taken `k` milliseconds after `t`, compared against a deadline `d > k`
   * milliseconds after `t`, sees an elapsed time of `2^32 - (d - k)`: the deadline lies
   * in the future, and unsigned subtraction turns that into a huge elapsed time.
   */
  lemma ElapsedToFutureDeadline(t: Millis, d: nat, k: nat)
    requires k < d < WRAP
    ensures Elapsed(Add(t, k), Add(t, d)) == WRAP - (d - k)
  {
  }

  /** Converts any integer to `unsigned long` (two's-complement wrap). */
  function ToUnsigned(x: int): (r: Millis)
    ensures 0 <= x < WRAP ==> r == x
    ensures -WRAP <= x < 0 ==> r == x + WRAP
  {
    x % WRAP
  }
}
