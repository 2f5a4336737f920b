/**
 * C-level facts shared by the test helpers of tests/dag.h: the range of the
 * 32-bit `int` the helpers compute in, the bound on what `rand()` returns, and
 * the one-line `minl` helper.
 */
module DagUtil {

  /** Smallest and largest value of a 32-bit C `int`. */
  const Int32Min: int := -0x8000_0000
  const Int32Max: int := 0x7FFF_FFFF

  /** `RAND_MAX` as glibc defines it (the C standard only promises at least 32767). */
  const RandMax: int := 0x7FFF_FFFF

  predicate IsInt32(x: int) {
    Int32Min <= x <= Int32Max
  }

  /** A value `rand()` can return: one in `[0, RAND_MAX]`. */
  predicate IsRandSample(r: int) {
    0 <= r <= RandMax
  }

  /** `minl`: the smaller of two `long` values. */
  function Minl(a: int, b: int): (m: int)
    ensures m <= a && m <= b
    ensures m == a || m == b
  {
    if a < b then a else b
  }
}
