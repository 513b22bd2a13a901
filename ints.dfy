/** Kotlin's 32-bit `Int`: its range and two's-complement wrap-around. */
module Ints {

  const IntMin: int := -0x8000_0000
  const IntMax: int := 0x7FFF_FFFF

  predicate InIntRange(x: int) { IntMin <= x <= IntMax }

  /** The `Int` that a Kotlin `Int` computation yields when its exact value is `x`.
      Wrapping each intermediate step and wrapping only the final value agree,
      because 32-bit arithmetic is arithmetic modulo 2^32. */
  function WrapInt32(x: int): (r: int)
    ensures InIntRange(r)
    ensures (r - x) % 0x1_0000_0000 == 0
    ensures InIntRange(x) ==> r == x
  {
    var m := x % 0x1_0000_0000;
    if m <= IntMax then m else m - 0x1_0000_0000
  }
}
