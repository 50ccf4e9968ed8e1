/** Java's 32-bit `int`, as the record reader uses it, and small integer helpers. */
module Primitives {

  /** Integer.MAX_VALUE */
  const MAX_INT: int := 0x7FFF_FFFF

  /** Integer.MIN_VALUE */
  const MIN_INT: int := -0x8000_0000

  /** A value of Java's `int` type. */
  type Int32 = x: int | MIN_INT <= x <= MAX_INT

  function Min(a: int, b: int): int {
    if a <= b then a else b
  }

  function Max(a: int, b: int): int {
    if a <= b then b else a
  }
}
