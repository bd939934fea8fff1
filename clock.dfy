/** The controller's millisecond clock: Arduino's free-running `millis()`
    counter, a `uint32_t` that wraps around every 2^32 ms (about 49.7 days).
    Every time computation of the firmware is `uint32_t` arithmetic, so the
    model writes the wrap-around out explicitly. */
module Clock {

  const Modulus: int := 0x1_0000_0000

  /** A value of C's `uint32_t`. */
  type U32 = x: int | 0 <= x < Modulus

  /** `a - b` evaluated in `uint32_t`: a negative difference wraps to 2^32 above it. */
  function Sub(a: U32, b: U32): (r: U32)
    ensures a >= b ==> r == a - b
    ensures a < b ==> r == a - b + Modulus
  {
    (a - b) % Modulus
  }

  /** `a + b` evaluated in `uint32_t`: a sum past the top wraps to 2^32 below it. */
  function Add(a: U32, b: U32): (r: U32)
    ensures a + b < Modulus ==> r == a + b
    ensures a + b >= Modulus ==> r == a + b - Modulus
  {
    (a + b) % Modulus
  }

  /** Wrap-around safety of every `now - started` in the firmware: if the
      counter reads `later` exactly `d` milliseconds after it read `earlier`
      (with d below the counter's period), the unsigned difference is `d`,
      whether or not the counter wrapped in between. */
  lemma ElapsedIsWrapSafe(earlier: U32, d: U32)
    ensures Sub(Add(earlier, d), earlier) == d
  {
  }

  /** The converse: the unsigned difference is the one delay that, added to
      the earlier reading, gives the later one. */
  lemma SubIsInverseOfAdd(later: U32, earlier: U32)
    ensures Add(earlier, Sub(later, earlier)) == later
    ensures forall d: U32 :: Add(earlier, d) == later ==> d == Sub(later, earlier)
  {
  }
}
