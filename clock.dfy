/**
 * The firmware's clock: `millis()` returns an `unsigned long`, which is 32 bits
 * wide on the ESP32, so it wraps around every 2^32 milliseconds (about 49.7 days).
 * Elapsed time is computed by unsigned subtraction, which is subtraction modulo 2^32.
 */
module Clock {

  const WRAP: int := 0x1_0000_0000

  /** A value of the 32-bit millisecond counter (or any `unsigned long`). */
  type Millis = x: int | 0 <= x < WRAP

  /** The conversion of a signed integer to `unsigned long`. */
  function ToMillis(x: int): (r: Millis)
    ensures 0 <= x < WRAP ==> r == x
    ensures -WRAP <= x < 0 ==> r == x + WRAP
  {
    x % WRAP
  }

  /** `now - since` as computed by the source: unsigned 32-bit subtraction. */
  function Elapsed(now: Millis, since: Millis): (r: Millis)
    ensures since <= now ==> r == now - since
    ensures now < since ==> r == now - since + WRAP
  {
    (now - since) % WRAP
  }

  /** The counter value read at absolute time `t` (milliseconds since boot). */
  function CounterAt(t: nat): Millis
  {
    t % WRAP
  }

  /**
   * Wrap-around safety: as long as less than 2^32 ms really passed between two
   * readings of the counter, their unsigned difference is the true elapsed time,
   * even if the counter wrapped in between: a reading taken 100 ms before the
   * counter overflows and checked 50 ms after it gives 150 ms.
   */
  lemma ElapsedIsTrueDuration(t0: nat, t1: nat)
    requires t0 <= t1 < t0 + WRAP
    ensures Elapsed(CounterAt(t1), CounterAt(t0)) == t1 - t0
  {
  }
}
