/**
  Two's-complement ranges and the two integer divisions that the C sources use.
  A signed `>> 15` rounds towards minus infinity; a signed `/` rounds towards zero.
 */
module FixedPoint {

  const Q15_ONE := 32768

  predicate Int16(x: int) { -0x8000 <= x <= 0x7FFF }

  /** A signed 16-bit PCM sample. */
  type Sample = x: int | Int16(x)

  predicate Int32(x: int) { -0x8000_0000 <= x <= 0x7FFF_FFFF }

  /** Arithmetic shift right by 15. */
  function Asr15(x: int): int { x / Q15_ONE }

  /** C division by a positive divisor. */
  function Truncated(x: int, d: int): int
    requires d > 0
  {
    if x < 0 then -(-x / d) else x / d
  }

  function Abs(x: int): int { if x < 0 then -x else x }

  function Min(a: int, b: int): int { if a <= b then a else b }

  function Max(a: int, b: int): int { if a >= b then a else b }

  lemma ProductIsMonotone(x: int, g: int, h: int)
    requires g <= h
    ensures x >= 0 ==> x * g <= x * h
    ensures x <= 0 ==> x * h <= x * g
  {
  }

  /** A Q15 gain of at most one never moves a sample across zero or away from it. */
  lemma GainContracts(x: int, g: int)
    requires 0 <= g <= Q15_ONE
    ensures x >= 0 ==> 0 <= Asr15(x * g) <= x
    ensures x <= 0 ==> x <= Asr15(x * g) <= 0
  {
    ProductIsMonotone(x, 0, g);
    ProductIsMonotone(x, g, Q15_ONE);
  }

  lemma GainIsMonotone(x: int, g: int, h: int)
    requires g <= h
    ensures x >= 0 ==> Asr15(x * g) <= Asr15(x * h)
    ensures x <= 0 ==> Asr15(x * h) <= Asr15(x * g)
  {
    ProductIsMonotone(x, g, h);
  }
}
