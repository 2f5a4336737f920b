/**
 * The integer array generators of tests/dag.h. Each call to the C library's
 * `rand()` is modelled by the next element of `samples`, the sequence of values
 * the generator would return; the i-th slot of a generated array consumes the
 * i-th sample.
 */
module Generators {
  import opened DagUtil

  /**
   * The value one slot of `initRandomArrayiRange` receives from sample `r`:
   * `min + r % (max - min + 1)`. With a non-negative sample C's `%` agrees
   * with Dafny's, and the result always lies in `[lo, hi]`.
   */
  function RangeSample(lo: int, hi: int, r: int): (x: int)
    requires lo <= hi && 0 <= r
    ensures lo <= x <= hi
  {
    lo + r % (hi - lo + 1)
  }

  /**
   * Every value of the range is produced by some sample `rand()` can return
   * (the one equal to its offset from `lo`), so the sampling misses nothing.
   */
  lemma RangeSampleOnto(lo: int, hi: int, x: int)
    requires lo <= x <= hi && hi - lo + 1 <= Int32Max
    ensures IsRandSample(x - lo) && RangeSample(lo, hi, x - lo) == x
  {
    SmallMod(x - lo, hi - lo + 1);
  }

  /** A remainder by a larger divisor leaves a non-negative value unchanged. */
  lemma SmallMod(a: int, d: int)
    requires 0 <= a < d
    ensures a % d == a
  {
  }

  /** The range computation never leaves the 32-bit `int` range of its operands. */
  lemma RangeSampleNoOverflow(lo: int, hi: int, r: int)
    requires IsInt32(lo) && IsInt32(hi) && lo <= hi && hi - lo + 1 <= Int32Max
    requires IsRandSample(r)
    ensures IsInt32(hi - lo + 1) && IsInt32(r % (hi - lo + 1))
    ensures IsInt32(RangeSample(lo, hi, r))
  {
  }

  /**
   * `initRandomArrayi`: a fresh array of `n` slots, slot `i` holding the raw
   * `i`-th sample.
   */
  method InitRandomArrayi(n: int, samples: seq<int>) returns (a: array<int>)
    requires 0 <= n <= |samples|
    requires forall i :: 0 <= i < n ==> 0 <= samples[i] <= RandMax
    ensures fresh(a) && a.Length == n
    ensures a[..] == samples[..n]
    ensures forall i :: 0 <= i < n ==> 0 <= a[i] <= RandMax
  {
    a := new int[n];
    for i := 0 to n
      invariant forall k :: 0 <= k < i ==> a[k] == samples[k]
    {
      a[i] := samples[i];
    }
  }

  /**
   * `initRandomArrayiRange`: a fresh array of `n` slots, slot `i` holding
   * `RangeSample(lo, hi, samples[i])`, hence a value in `[lo, hi]`. The caller
   * must pass `lo <= hi` with a range size `hi - lo + 1` that fits in an `int`.
   */
  method InitRandomArrayiRange(n: int, lo: int, hi: int, samples: seq<int>) returns (a: array<int>)
    requires 0 <= n <= |samples|
    requires IsInt32(lo) && IsInt32(hi) && lo <= hi && hi - lo + 1 <= Int32Max
    requires forall i :: 0 <= i < n ==> 0 <= samples[i] <= RandMax
    ensures fresh(a) && a.Length == n
    ensures forall i :: 0 <= i < n ==> a[i] == RangeSample(lo, hi, samples[i])
    ensures forall i :: 0 <= i < n ==> lo <= a[i] <= hi
  {
    a := new int[n];
    for i := 0 to n
      invariant forall k :: 0 <= k < i ==> a[k] == RangeSample(lo, hi, samples[k])
    {
      var sample := lo + samples[i] % (hi - lo + 1);
      a[i] := sample;
    }
  }
}
