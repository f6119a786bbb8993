/**
 Kotlin's `Int`: a 32-bit two's-complement integer whose addition wraps
 around silently instead of failing.
 */
module KotlinInt {

  const MIN: int := -0x8000_0000
  const MAX: int := 0x7FFF_FFFF

  /** Number of distinct `Int` values; wrapped results differ from the exact one by this much. */
  const MODULUS: int := 0x1_0000_0000

  predicate InRange(x: int) {
    MIN <= x <= MAX
  }

  /** The values a Kotlin `Int` variable can hold. */
  type Int32 = x: int | InRange(x)

  /**
   `a + b` as the JVM computes it: the one `Int` congruent to the exact sum
   modulo 2^32, which is the exact sum whenever that fits.
   */
  function Add(a: Int32, b: Int32): (r: Int32)
    ensures (a + b - r) % MODULUS == 0
    ensures InRange(a + b) ==> r == a + b
  {
    assert InRange(a) && InRange(b);
    var sum: int := a + b;
    if sum > MAX then sum - MODULUS
    else if sum < MIN then sum + MODULUS
    else sum
  }
}
