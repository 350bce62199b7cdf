# Grow-only counter (G-Counter) in Dafny

This project models the state-based grow-only counter `GCounter<T, R>` of the
`convergent` module (`crdt.counter.GCounter`). A replica of a logical counter
(`id`) is identified by `replicaId`. It holds its own local count
(`replicaValue`) and a stored per-replica view (`staleVectorClock`, here
`stale`). Reading the counter sums the *current vector clock*: the stored view
with this replica's own entry overwritten by the local count. `inc` adds a
delta to the local count. `merge` refuses a different counter id or an equal
replica id. Otherwise it stores the pointwise maximum of both replicas'
current clocks over the union of their keys, with a missing key read as 0.

Files:

- `map_sum.dfy` (module `MapSum`): the sum of a map's values (`values.sum()`),
  a missing entry read as 0 (`Get`), the pointwise order `Below`, and the facts
  that the sum does not depend on which key is taken first and is monotone.
- `vector_clock.dfy` (module `VectorClock`): the pure side of the counter.
  `CurrentClock` (`getCurrentVectorClock`), `ClockValue` (`value`),
  `PointwiseMax` (the view `merge` stores), and lemmas relating them: reading,
  increment, the join laws, and monotonicity, idempotence, commutativity and
  associativity of merge.
- `gcounter.dfy` (module `Counter`): the class `GCounter` with the source's
  fields. `Inc` and `Merge` update them in place. `Merge` builds the new view
  key by key in a loop, as the source's `forEach` does. `Value` sums the
  current clock in a loop.
- `scenarios.dfy` (module `Scenarios`): the repository's unit-test scenarios
  restated as client methods on `GCounter<int, int>`, reaching the same states
  as the tests (repeated `inc()` calls go through `IncTimes`, a loop of
  `Inc(1)`). Each method's postcondition includes what the test asserts.
  Where a test only compares two values, the postcondition also names the
  value both sides reach.

Points where this code differs from what a G-Counter is often expected to do:

- `merge` reports a refusal only as `false`, with no distinction between a
  different counter id and an equal replica id. Either way nothing changes.
- `inc` accepts any delta, negative ones included, and has no overflow check.
  Counts are therefore unbounded `int`, and nothing fails on overflow.
- The stored view keeps this replica's own key. It enters through the current
  clock in `merge` and is only shadowed when the clock is read.
- Three usual G-Counter guarantees hold here only under a condition: the
  value after a merge is at least the other replica's value, and merge is
  commutative and associative on values. The condition (`Authoritative`) is
  that every replica's local count is at least what any replica knows about
  it. It can fail without any negative delta: `GCounter(1, 1, -5)` merging
  `GCounter(1, 2, 3)` stores `{1: 0, 2: 3}` and reads -2, below 3. It is
  expected to hold when every replica starts from a non-negative initial
  value, applies only non-negative deltas, and within a counter each replica
  id belongs to one object only. A second object with the same replica id can
  break it whether its count is smaller or larger: `GCounter(1, 2, 0)`
  merging `GCounter(1, 1, 12)` reads 12, and `GCounter(1, 1, 10)` merging
  that replica then reads 10. Only the merge step is proved to keep the
  condition (`MergeKeepsAuthority`). No lemma proves it for a whole system of
  replicas.

## Model

| member | source | states |
|---|---|---|
| `MapSum.Get` | convergent/src/main/kotlin/crdt/counter/GCounter.kt:32 | the entry a map holds for a key, 0 when the key is absent (`?: 0`); the entries of `PointwiseMax`, `Below` and `Authoritative` are stated through it |
| `MapSum.Sum` | convergent/src/main/kotlin/crdt/counter/GCounter.kt:17 | the sum of all values of a map (`values.sum()`); a map with no negative value has a non-negative sum |
| `MapSum.SumSplit` | convergent/src/main/kotlin/crdt/counter/GCounter.kt:17 | the sum of a map's values is any one entry (0 if absent) plus the sum of the rest, so it does not depend on iteration order |
| `MapSum.SumMonotone` | convergent/src/main/kotlin/crdt/counter/GCounter.kt:17 | a map pointwise below another (missing entries read as 0) has a sum no larger |
| `MapSum.SumAgree` | convergent/src/main/kotlin/crdt/counter/GCounter.kt:17 | maps that agree on every key, missing entries read as 0, have equal sums |
| `VectorClock.Max` | convergent/src/main/kotlin/crdt/counter/GCounter.kt:32 | the larger of two counts: at least both, and equal to one of them |
| `VectorClock.CurrentClock` | convergent/src/main/kotlin/crdt/counter/GCounter.kt:38-42 | the stored view with this replica's own entry set to its local count; it has no contract of its own, and `ValueIgnoresOwnStaleEntry` and `ShadowIsNoop` state what it means for the value and for a view that already holds the local count |
| `VectorClock.ClockValue` | convergent/src/main/kotlin/crdt/counter/GCounter.kt:15-17 | the value is the sum of the current clock; when no other replica's stored entry is negative, it is at least the local count |
| `VectorClock.PointwiseMax` | convergent/src/main/kotlin/crdt/counter/GCounter.kt:30-33 | the view a merge stores has exactly the union of both clocks' keys; its entries are stated by `PointwiseMaxUpperBound` and `PointwiseMaxLeast` |
| `VectorClock.ValueIgnoresOwnStaleEntry` | convergent/src/main/kotlin/crdt/counter/GCounter.kt:15-17 | the value is the local count plus the sum of the stored entries of all other replicas; the stored own entry never counts |
| `VectorClock.NewCounterValue` | convergent/src/main/kotlin/crdt/counter/GCounter.kt:9-17 | a counter with an empty stored view reads its initial value |
| `VectorClock.IncAddsDelta` | convergent/src/main/kotlin/crdt/counter/GCounter.kt:20-22 | adding a delta to the local count raises the value by exactly that delta |
| `VectorClock.PointwiseMaxUpperBound` | convergent/src/main/kotlin/crdt/counter/GCounter.kt:30-33 | the merged view has exactly the union of both clocks' keys and is pointwise above both clocks |
| `VectorClock.PointwiseMaxLeast` | convergent/src/main/kotlin/crdt/counter/GCounter.kt:30-33 | any clock above both clocks is above the merged view, so the merged view is their least upper bound |
| `VectorClock.PointwiseMaxCommutative` | convergent/src/main/kotlin/crdt/counter/GCounter.kt:31-32 | the merged view does not depend on the order of the two clocks |
| `VectorClock.PointwiseMaxAssociative` | convergent/src/main/kotlin/crdt/counter/GCounter.kt:31-32 | merging three clocks gives the same view in either grouping |
| `VectorClock.PointwiseMaxIdempotent` | convergent/src/main/kotlin/crdt/counter/GCounter.kt:31-32 | merging a clock with itself gives that clock |
| `VectorClock.MergeMonotone` | convergent/src/main/kotlin/crdt/counter/GCounter.kt:28-34 | a merge lowers no entry of the current clock, so the value after it is at least the value before |
| `VectorClock.MergeCoversOther` | convergent/src/main/kotlin/crdt/counter/GCounter.kt:28-34 | if the other clock knows no more of this replica than its local count, the clock after the merge is above the other clock and the value is at least the other replica's value |
| `VectorClock.MergeUnusedReplicaKeepsValue` | convergent/src/main/kotlin/crdt/counter/GCounter.kt:28-34 | merging a never-incremented replica leaves the value unchanged when no stored entry of another replica is negative |
| `VectorClock.MergeIdempotent` | convergent/src/main/kotlin/crdt/counter/GCounter.kt:28-34 | merging the same clock a second time stores exactly the view the first merge stored |
| `VectorClock.MergeKeepsAuthority` | convergent/src/main/kotlin/crdt/counter/GCounter.kt:28-34 | if both merged clocks know no more of any replica than its local count, neither does the current clock after the merge |
| `VectorClock.ShadowIsNoop` | convergent/src/main/kotlin/crdt/counter/GCounter.kt:38-42 | a view that already holds the local count for this replica is its own current clock |
| `VectorClock.MergeCommutesOnValue` | convergent/src/main/kotlin/crdt/counter/GCounter.kt:28-34 | two replicas that each know no more of the other than its local count read the same value whichever merges the other |
| `VectorClock.MergeAssociativeOnValue` | convergent/src/main/kotlin/crdt/counter/GCounter.kt:28-34 | three such replicas read the same value after merging (1 into 3 after 2 into 1) or (2 into 1 after 3 into 2) |
| `Counter.GCounter.constructor` | convergent/src/main/kotlin/crdt/counter/GCounter.kt:9-13 | a new counter has the given ids, local count equal to the initial value and an empty stored view, so it reads the initial value |
| `Counter.GCounter.Value` | convergent/src/main/kotlin/crdt/counter/GCounter.kt:15-18 | the loop returns the sum of the current clock |
| `Counter.GCounter.Inc` | convergent/src/main/kotlin/crdt/counter/GCounter.kt:20-22 | the local count grows by the delta, the stored view is unchanged, and the value grows by the delta |
| `Counter.GCounter.Merge` | convergent/src/main/kotlin/crdt/counter/GCounter.kt:24-36 | returns true exactly when the counter ids are equal and the replica ids differ; on false nothing changes; on true the stored view becomes the pointwise maximum of both old current clocks and the value does not decrease; the local count and `other` never change |
| `Scenarios.IncTimes` | convergent/src/test/kotlin/crdt/counter/GCounterTest.kt:50-52 | `n` calls of `inc()` in a row raise the local count by `n` and leave the stored view unchanged |
| `Scenarios.NegativeStartReadsBelowOther` | convergent/src/main/kotlin/crdt/counter/GCounter.kt:28-34 | a replica starting at -5 that merges a replica at 3 reads -2, below the other replica's 3 (the merge stores `{1: 0, 2: 3}`, as the helper `ViewMinusFiveThree` shows) |
| `Scenarios.ReusedIdReadsBelowOther` | convergent/src/main/kotlin/crdt/counter/GCounter.kt:28-42 | with two objects of replica 1 (at 10 and at 12) and replica 2 at 0, both merges succeed; replica 2 reads 12 after merging the object at 12, and the object at 10 reads 10 after merging replica 2, because its own entry shadows the 12 |
| `Scenarios.NewCounterReadsZero` | convergent/src/test/kotlin/crdt/counter/GCounterTest.kt:14-18 | a new counter with no increments reads 0 |
| `Scenarios.IncRaisesValue` | convergent/src/test/kotlin/crdt/counter/GCounterTest.kt:20-36 | `inc(1)` raises the value by 1 and `inc(7)` by 7 |
| `Scenarios.TenIncs` | convergent/src/test/kotlin/crdt/counter/GCounterTest.kt:38-45 | ten increments of 1 on a new counter make it read 10 |
| `Scenarios.MergeUnusedReplica` | convergent/src/test/kotlin/crdt/counter/GCounterTest.kt:47-58 | merging a never-incremented replica into a counter at 10 succeeds and it still reads 10 |
| `Scenarios.MergeUsedReplica` | convergent/src/test/kotlin/crdt/counter/GCounterTest.kt:60-73 | merging a replica at 7 into one at 10 succeeds and it reads 17 |
| `Scenarios.SecondMerge` | convergent/src/test/kotlin/crdt/counter/GCounterTest.kt:75-87 | both merges succeed and, after the other replica moved from 7 to 12, the first reads 22 |
| `Scenarios.MergeCommutes` | convergent/src/test/kotlin/crdt/counter/GCounterTest.kt:89-100 | replica 1 at 10 merging replica 2 at 7 and the reverse read the same value (the test's assertion), which is 17 |
| `Scenarios.MergeAssociates` | convergent/src/test/kotlin/crdt/counter/GCounterTest.kt:102-117 | replicas at 10, 7 and 5 merged in either grouping read the same value (the test's assertion), which is 22 |
| `Scenarios.MergeIsIdempotent` | convergent/src/test/kotlin/crdt/counter/GCounterTest.kt:119-135 | merging the same replica, then an equal copy, then the same replica again leaves the value at 17 each time |
| `Scenarios.MergeIsNotReflexive` | convergent/src/test/kotlin/crdt/counter/GCounterTest.kt:137-152 | merging a counter with itself, or with another object of the same replica id, returns false |

## Left out

- The `@Volatile` marker and all thread-safety: the model is sequential. The coroutine tests (convergent/src/test/kotlin/crdt/counter/GCounterTest.kt:155-191) depend on `delay` and `launch` timing and are not modelled.
- 64-bit `Long` overflow: `inc` and `sum()` have no check in the source, so counts are unbounded integers.
- Kotlin default arguments (`initialValue = 0`, `inc(value = 1)`): callers pass the value explicitly.
- `HashMap` iteration order: views are Dafny maps, and `MapSum.SumSplit` shows the sum does not depend on order.
- Aliasing of the clock copy: `getCurrentVectorClock` returns a fresh mutable copy, which the model treats as a map value.
- `VectorClock.MergeCoversOther`: stated under `Authoritative`, because the code does not guarantee the unconditional promise (another replica may know a larger count for this replica, e.g. after a negative delta, or when a second object of the same replica id has a larger count, see `Scenarios.ReusedIdReadsBelowOther`; with a negative initial value the merge itself raises this replica's stored entry to 0, see `Scenarios.NegativeStartReadsBelowOther`).
- `VectorClock.MergeCommutesOnValue`: stated under `Authoritative` on both sides, for the same reason.
- `VectorClock.MergeAssociativeOnValue`: stated under `Authoritative` for all three replicas, for the same reason.
- `VectorClock.MergeUnusedReplicaKeepsValue`: requires non-negative stored entries for other replicas, because merging raises a negative entry to 0.
- Preservation of `Authoritative` across a whole system of replicas under `inc` and `merge`: only the merge step is proved (`VectorClock.MergeKeepsAuthority`).
- Build configuration (convergent/build.gradle.kts): no logic.
