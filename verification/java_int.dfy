/** Java's fixed-width integers and the two's-complement wrap-around of `int` addition. */
module JavaInt {

  const MIN_INT: int := -0x8000_0000
  const MAX_INT: int := 0x7fff_ffff
  /** Number of distinct `int` values; `int` arithmetic is exact modulo this. */
  const INT_RANGE: int := 0x1_0000_0000

  type int32 = x: int | MIN_INT <= x <= MAX_INT
  type int64 = x: int | -0x8000_0000_0000_0000 <= x <= 0x7fff_ffff_ffff_ffff

  /** The `int` that the JVM stores for the mathematical integer `x`: `x` reduced into range modulo 2^32. */
  function Wrap(x: int): (r: int32)
    ensures MIN_INT <= x <= MAX_INT ==> r == x
    ensures (x - r) % INT_RANGE == 0
  {
    (x - MIN_INT) % INT_RANGE + MIN_INT
  }

  /** Java's `a + b` on two `int`s, which silently overflows. */
  function Add(a: int32, b: int32): (r: int32)
    ensures MIN_INT <= a + b <= MAX_INT ==> r == a + b
    ensures a + b > MAX_INT ==> r == a + b - INT_RANGE
    ensures a + b < MIN_INT ==> r == a + b + INT_RANGE
  {
    Wrap(a + b)
  }
}
