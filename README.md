# Test helpers of `dag`: array generators and array verifiers

This project models the integer and boolean parts of `tests/dag.h`, the test-support header of the `dag` repository.

- **Generators.** `initRandomArrayi` fills a new array of `NUM_ELEMS` ints with raw `rand()` values. `initRandomArrayiRange` fills each slot with `min + rand() % (max - min + 1)`. The calls to `rand()` are given to the model as an explicit sequence of samples, `samples`. Each sample lies in `[0, RAND_MAX]`, and slot `i` consumes sample `i`.
- **Verifiers.** `verifyArrays` and `verifyBoolArrays` scan two arrays up to `len`. They count mismatches and give up once the count reaches 10. In place of the printed lines, the model returns a `Report`. A `Report` holds the verdict (`Passed`/`Failed`), the mismatches reported in order (position, expected value, actual value), and whether the "Too many failures" exit was taken.
- **Scalar helpers.** `verifyInt` compares two ints, `getBool` renders a boolean and `minl` takes the smaller of two `long` values.

Files:

- `dag_util.dfy` (module `DagUtil`): the C `int` range, `RAND_MAX` and `Minl`.
- `generators.dfy` (module `Generators`): the generators.
- `verifiers.dfy` (module `Verifiers`): the verifiers. They are methods with loops, each proved equal to the specification function `ScanReport`. The lemmas give that function's meaning: which mismatches are reported, in what order, what the verdict is, and where the scan stops.

## Model

| member | source | states |
|---|---|---|
| `DagUtil.Minl` | tests/dag.h:143-145 | the result is at most `a` and at most `b`, and is one of the two |
| `Generators.RangeSample` | tests/dag.h:18 | for `min <= max` and a non-negative sample, `min + r % (max - min + 1)` lies in `[min, max]` |
| `Generators.RangeSampleOnto` | tests/dag.h:18 | every value of `[min, max]` is produced by some sample `rand()` can return |
| `Generators.RangeSampleNoOverflow` | tests/dag.h:18 | when `max - min + 1` fits in an `int`, no intermediate value or result leaves the 32-bit range |
| `Generators.InitRandomArrayi` | tests/dag.h:5-12 | returns a fresh array of exactly `NUM_ELEMS` slots; slot `i` holds the `i`-th sample, a value in `[0, RAND_MAX]` |
| `Generators.InitRandomArrayiRange` | tests/dag.h:14-22 | returns a fresh array of exactly `NUM_ELEMS` slots; slot `i` depends only on the `i`-th sample and lies in `[min, max]` |
| `Verifiers.Mismatches` | tests/dag.h:55-59 | every listed record is a real mismatch, with the values at its position; positions strictly increase; at most `n` records |
| `Verifiers.MismatchesComplete` | tests/dag.h:55-59 | every mismatching position below `n` appears in the list |
| `Verifiers.MismatchesEmpty` | tests/dag.h:67-71 | the list is empty if and only if the first `n` positions all agree |
| `Verifiers.MismatchCount` | tests/dag.h:55-59 | the list has one record per mismatching position: its length equals the number of such positions |
| `Verifiers.MismatchesPrefix` | tests/dag.h:55-64 | scanning further only appends records: the mismatches of a shorter scan are a prefix of those of a longer one |
| `Verifiers.MismatchesOfPrefix` | tests/dag.h:55-59 | the mismatches among the first `n` positions depend on nothing past them |
| `Verifiers.ScanReport` | tests/dag.h:53-72 | verdict `Passed` if and only if all `len` positions agree; truncated if and only if there are at least 10 mismatches, including a 10th at the last position; truncated implies `Failed`; the reported list is a prefix of all mismatches, of length `min(10, total)` |
| `Verifiers.ReportedAreTheFirst` | tests/dag.h:55-64 | a mismatch missing from the report comes after every reported one, and only a truncated report omits any |
| `Verifiers.ScanStopsAtCap` | tests/dag.h:60-64 | once the 10th mismatch is found before position `k`, nothing from position `k` on affects the report |
| `Verifiers.ScanLength` | tests/dag.h:55 | the number of positions the `for` loop visits: none when `len <= 0`, otherwise exactly `len` |
| `Verifiers.VerifyArrays` | tests/dag.h:53-72 | the counter loop with its early exit at 10 returns exactly `ScanReport` of the two int arrays over `len` (nothing when `len <= 0`) |
| `Verifiers.VerifyBoolArrays` | tests/dag.h:78-98 | the same loop over bool arrays returns exactly `ScanReport` over `len`; each record carries its position |
| `Verifiers.GetBool` | tests/dag.h:74-76 | `true` renders as "true" and `false` as "false" |
| `Verifiers.GetBoolInjective` | tests/dag.h:74-76 | two booleans render alike if and only if they are equal |
| `Verifiers.VerifyInt` | tests/dag.h:125-132 | passes if and only if `a == b` |
| `Verifiers.VerifyIntIsSingletonScan` | tests/dag.h:125-132 | `verifyInt` gives the verdict of a one-element array scan; on a mismatch that scan reports the same expected and actual values |

## Left out

- `rand()` and its hidden global state are not modelled. They are replaced by the `samples` parameter, with each sample in `[0, RAND_MAX]` (glibc's `RAND_MAX`, `2^31 - 1`). Nothing is claimed about the distribution or about modulo bias.
- `malloc` and allocation failure are not modelled: C has no checked failure path for them. The generators return a fresh Dafny array. A negative `NUM_ELEMS` is excluded by a precondition. In C it would reach `malloc` with a huge size and write nothing.
- `min <= max`, with a range size `max - min + 1` that fits in an `int`, is a precondition of `Generators.InitRandomArrayiRange`: it is the contract the helper sets for its callers. Outside it, C divides by zero only when `min == max + 1`. Signed overflow happens when `max - min` or `max - min + 1` overflows, or, for `min > max + 1`, when `min + rand() % (max - min + 1)` exceeds `INT_MAX` (for example `min = INT_MAX`, `max = 0`, a sample of 1). For `min > max + 1` when none of these overflows, C's truncating `%` by the negative range size is well defined and yields values in `[min, 2*min - max - 2]`. The model does not cover that case.
- The `printf` text and the `name` label are not modelled: they are console output. Only the structured outcome is kept. The printed mismatch line of `verifyArrays` does not show the position, but the model records it there too. `getBool` is modelled by itself, not as part of a message.
- `verifyInt` prints the expected and actual values on a mismatch. `Verifiers.VerifyInt` returns only the verdict; the two values are the function's own inputs.
- All floating-point code is not modelled, because it depends on float semantics and float-to-int truncation. This covers `initRandomArrayf`, `initRandomArrayfRange`, `randomizeFloatArray`, `almostEquals`, `verifyFloatArrays` and `verifyFloat`. `almostEquals` applies integer `abs` to a float difference. `verifyFloatArrays` prints FAILED on a clean scan when `quiet` is set.
- C `int` overflow of the mismatch counter and of the loop index cannot happen: both are at most `len`, which is an `int`. They are modelled as unbounded integers.
