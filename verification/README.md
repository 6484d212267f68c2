# Sliding time window (go-tk/stw) in Dafny

The model covers `SlidingTimeWindow`, which aggregates samples over the most recent `period` of time. The period is split into `numberOfBuckets` buckets, each `periodPerBucket` nanoseconds wide. Together they form a ring.

- An instant maps to an absolute **bucket number**: nanoseconds divided by the bucket width. Each bucket number is stored in ring slot `number % numberOfBuckets`.
- Every bucket remembers which bucket number it currently stands for, plus the sum and count of its samples.
- The window keeps a running `totalSum` and `totalCount`.
- **Advancing** the window to an instant (`doUpdate`) walks the ring backwards from the instant's slot:
  - It first goes down to slot 0, then from the last slot down to the slot after the instant's.
  - At step k the walk expects bucket number `b0 - k`.
  - A bucket with an older number is stale. It is re-tagged with the expected number and emptied, and its sum and count leave the totals.
  - The walk returns at the first bucket that is already current.
- `UpdateWithSample` advances the window and then folds the sample into the bucket of the instant's number. If that slot already holds a later number, the sample is late and is dropped.
- `Update` only advances.
- `Sum`, `Count` and `Average` read the totals.

The Go methods mutate the window in place. Here every operation takes a `Window` value and returns the new one.

Modules, one per file:

- `Ring` (ring.dfy): the order in which the walk visits slots (`Back`), and slot arithmetic (`SlotOf`, `Latest`).
- `Buckets` (bucket.dfy): the bucket record, and sums and counts over a ring.
- `Windows` (window.dfy): the window state, its constructor and the accessors.
- `Rotation` (rotation.dfy): doUpdate, in three forms:
  - the recursive walk `Walk`
  - the declarative outcome `Expired`/`StopAt`
  - the two-loop method `DoUpdate`, proved equal to the walk
- `Expiry` (expiry.dfy): what one advance guarantees.
- `Sampling` (sample.dfy): `UpdateWithSample` and `Update`.
- `Position` (position.dfy): the invariant that makes the early stop safe. Under it, the walk equals a full sweep of the ring.
- `History` (history.dfy): arbitrary sequences of calls starting from the constructor.
- `Scenarios` (scenarios.dfy): the concrete windows the repository's tests expect.

## Model

| member | source | states |
|---|---|---|
| Windows.NewSlidingTimeWindow | slidingtimewindow.go:14-19 | for a non-negative period, the bucket width is the ceiling of period / numberOfBuckets (width × n ≥ period > (width − 1) × n); there are n buckets, all number 0 and empty; totals are zero and agree with the buckets; the window is usable (positive width) iff the period is positive |
| Windows.Quo | slidingtimewindow.go:16 | Go's int64 division truncates toward zero: for a dividend of either sign, quotient × divisor lies between zero and the dividend, less than one divisor away from the dividend |
| Windows.WidthBounds | slidingtimewindow.go:16 | for any period, the truncating (period + n − 1) / n is the ceiling for non-negative periods, and is positive exactly when the period is |
| Windows.Sum | slidingtimewindow.go:72-73 | when the totals are conserved, the reported sum is the sum over all bucket sums |
| Windows.Count | slidingtimewindow.go:75-76 | when the totals are conserved, the reported count is the sum over all bucket counts |
| Windows.Average | slidingtimewindow.go:69-70 | defined iff the count is non-zero, and then average × count = sum (Go's NaN for 0/0 is None) |
| Rotation.BucketNumber | slidingtimewindow.go:39 | the instant's bucket number never exceeds its nanosecond count; its exact bounds are in Rotation.BucketNumberBounds |
| Rotation.Expire | slidingtimewindow.go:47-51 | one expiry: slot s now holds an empty bucket numbered e and no other slot changes; totalSum and totalCount move by exactly the change in the summed bucket sums and counts, so conserved totals stay conserved |
| Rotation.Walk | slidingtimewindow.go:42-65 | both loops as one recursion over the step k; the ring keeps its length and width, and Rotation.WalkIsExpired states its outcome |
| Rotation.BucketNumberBounds | slidingtimewindow.go:39 | the instant lies in [b0 × width, (b0 + 1) × width), and a later instant never gets an earlier bucket number |
| Rotation.StopAt | slidingtimewindow.go:42-46 | the stop point is the first step whose bucket is already current: every earlier step is stale, and the stop step is not |
| Rotation.WalkIsExpired | slidingtimewindow.go:42-65 | the step-by-step walk leaves exactly the slots of steps before the stop point expired, each with number b0 − step and empty; every other slot is untouched |
| Rotation.WalkConserves | slidingtimewindow.go:47-51 | each expiry moves totalSum and totalCount by exactly the change in the summed bucket sums and counts |
| Rotation.AdvanceExpires | slidingtimewindow.go:38-67 | advancing gives the declarative outcome (stale slots up to the first current bucket are re-tagged and emptied), and the totals follow the buckets |
| Rotation.Visit | slidingtimewindow.go:43-52 | one loop iteration reports "current" iff the bucket's number is at least the expected one, and then changes nothing; otherwise its result is the window with that bucket expired to the expected number, and the walk continues from there |
| Rotation.DoUpdate | slidingtimewindow.go:38-67 | the two loops (i0 down to 0, then n − 1 down to i0 + 1, returning at the first current bucket) compute exactly the recursive walk and return the instant's bucket number |
| Rotation.Advance | slidingtimewindow.go:38-40 | doUpdate as a function: it returns the instant's bucket number, and the ring keeps its length and bucket width |
| Rotation.WalkHalts | slidingtimewindow.go:44-46 | a bucket already carrying the expected number or a later one, or the end of the second loop, ends the walk with nothing changed |
| Rotation.WalkStale | slidingtimewindow.go:47-52 | a stale bucket is re-tagged, its sum and count are subtracted from the totals and zeroed, and the walk continues with the next expected number |
| Expiry.AdvanceAt | slidingtimewindow.go:42-65 | slot j, d steps behind the instant's slot, is replaced by an empty bucket numbered b0 − d iff d is before the stop point; otherwise it is unchanged |
| Expiry.AdvanceConserves | slidingtimewindow.go:47-51 | if the totals equal the bucket sums and counts before an advance, they do after it |
| Expiry.AdvanceMonotone | slidingtimewindow.go:44-47 | no bucket number ever decreases, and a bucket whose number is kept is not modified |
| Expiry.AdvanceRetagsOwnSlot | slidingtimewindow.go:47-52 | every rewritten bucket gets a strictly larger number that is congruent to its own slot, and is emptied |
| Expiry.AdvanceStopsAtFirstCurrent | slidingtimewindow.go:44-46 | the slot d steps back changes iff every step 0..d found a stale bucket, so nothing past the first current bucket changes |
| Expiry.AdvanceTarget | slidingtimewindow.go:40-46 | after advancing, the instant's slot holds a number ≥ b0; it is exactly b0 iff it held a number ≤ b0 before; a later number is left untouched |
| Expiry.AdvanceIdempotent | slidingtimewindow.go:38-46 | advancing twice to the same instant is the same as advancing once |
| Expiry.AdvanceFullExpiry | slidingtimewindow.go:42-65 | when the instant is at least a full ring ahead of every bucket, every slot is emptied and re-tagged with its latest number not after b0, and conserved totals become zero |
| Expiry.AdvanceEmpty | slidingtimewindow.go:47-51 | advancing a window whose buckets are all empty keeps them empty and keeps the totals |
| Sampling.UpdateWithSample | slidingtimewindow.go:21-33 | the result is usable, has the same shape, and its totals change by exactly what its bucket sums and counts change by |
| Sampling.Update | slidingtimewindow.go:35-36 | the result is usable and has the same shape, and conserved totals stay conserved |
| Sampling.UpdatesConserve | slidingtimewindow.go:21-36 | both operations keep the totals equal to the bucket sums and counts |
| Sampling.LateSampleDropped | slidingtimewindow.go:24-28 | UpdateWithSample equals a plain Update iff the instant's slot already held a later bucket number |
| Sampling.SampleAccepted | slidingtimewindow.go:24-32 | an accepted sample adds exactly x and 1 to the totals and to its own bucket, and no other bucket changes; the bucket is the existing current one, or a fresh one holding only x |
| Sampling.UpdateIdempotent | slidingtimewindow.go:36 | Update is idempotent at a fixed instant |
| Sampling.UpdateAfterSample | slidingtimewindow.go:21-36 | after a sample at an instant, an Update at the same instant changes nothing |
| Position.NewWindowInv | slidingtimewindow.go:14-19 | a freshly constructed window satisfies the window invariant at position 0 |
| Position.EarlyStopSound | slidingtimewindow.go:44-46 | under the invariant, the early-stop walk gives the same ring as a full sweep that expires every slot behind its latest number for the instant |
| Position.AdvanceToPastIsNoop | slidingtimewindow.go:44-46 | advancing to an instant no newer than the newest bucket number already seen changes nothing |
| Position.AdvanceKeepsInv | slidingtimewindow.go:38-67 | advancing keeps the invariant, with the position moved to max(p, b0) |
| Position.SampleKeepsNumbers | slidingtimewindow.go:24-32 | recording a sample never changes a bucket number and never lowers a count |
| Position.UpdatesKeepInv | slidingtimewindow.go:21-36 | both public operations keep the invariant |
| Position.SampleRecordedIffInWindow | slidingtimewindow.go:24-28 | under the invariant, a sample is recorded iff its bucket number is less than a full ring behind the newest bucket number seen |
| Position.RecentSamplesKept | slidingtimewindow.go:38-67 | under the invariant, advancing to an instant less than a full ring past the oldest bucket that holds samples keeps every such bucket and leaves the totals unchanged: only empty buckets are expired |
| Position.RecentSampleAdds | slidingtimewindow.go:21-33 | under the same conditions, a sample at an instant no older than the newest bucket number seen adds exactly x and 1 to the totals, and every bucket with samples still lies within the ring |
| History.Replay | slidingtimewindow.go:21-36 | along any sequence of calls the invariant holds, the position never moves back, and no bucket number decreases |
| History.ConservedAlways | slidingtimewindow.go:14-36 | whatever calls are made on a constructed window, Sum and Count equal the sums over the buckets, and Count is never negative |
| Ring.Back | slidingtimewindow.go:42-65 | the slot both loops reach after k steps from slot i0 (the loop index i of lines 42 and 54); it lies in the ring, and Ring.BackInjective, Ring.BackInvolution and Ring.BackCongruent state what it means |
| Ring.SlotOf | slidingtimewindow.go:24-40 | the ring slot of a bucket number, `bucketNumber % len(buckets)` at lines 24 and 40; it lies in the ring, and Ring.BackCongruent and Expiry.AdvanceRetagsOwnSlot give the congruence it keeps |
| Ring.BackInjective | slidingtimewindow.go:42-65 | the two loops visit n distinct slots: different step counts reach different slots |
| Ring.BackCongruent | slidingtimewindow.go:40-52 | the number written at step k, b0 − k, belongs to the slot visited at step k |
| Ring.LatestIsGreatest | slidingtimewindow.go:40 | Latest(p, j) is the greatest number ≤ p stored in slot j |
| Ring.LatestMonotone | slidingtimewindow.go:39-40 | the number a slot must carry never moves back as time advances |
| Scenarios.ConstructorWidths | slidingtimewindow_test.go:13-86 | 3s over 2 buckets gives 1.5s; 10ns over 3 gives 4ns, rounded up; 9s over 3 gives 3s, the window built at lines 86 and 224 |
| Scenarios.SampleAt12 | slidingtimewindow_test.go:86-87 | the first sample of the sample tests expires the whole ring into buckets 3, 4, 2 and records 33 in bucket 4 |
| Scenarios.NineEmpty | slidingtimewindow_test.go:86 | the 9s, 3-bucket constructor gives three empty buckets numbered 0, 3s wide |
| Scenarios.SampleAt11 | slidingtimewindow_test.go:97 | 22 at 11s lands in the still-current bucket 3 without expiring anything |
| Scenarios.SampleAt13 | slidingtimewindow_test.go:98 | 44 at 13s joins 33 in bucket 4, giving the three-sample state: buckets 3, 4, 2 with sums 22, 77, 0 and totals 99 and 3 |
| Scenarios.LateSampleAt1 | slidingtimewindow_test.go:96-124 | a sample at 1s, far behind bucket 3, leaves the three-sample state unchanged |
| Scenarios.SampleAt16 | slidingtimewindow_test.go:126-154 | a sample at 16s expires bucket 2 into bucket 5 and stops at bucket 4; totals 110 and 4 |
| Scenarios.SampleAt21 | slidingtimewindow_test.go:156-185 | a sample at 21s expires buckets 4 and 3 into 7 and 6 and stops at bucket 5; totals 44 and 2 |
| Scenarios.SampleAt23 | slidingtimewindow_test.go:187-215 | a sample at 23s expires every bucket; totals 99 and 1 |
| Scenarios.FirstSampleAt11 | slidingtimewindow_test.go:224-225 | the first sample of the Update tests expires the whole ring into buckets 3, 1, 2 and records 22 in bucket 3 |
| Scenarios.SecondSampleAt12 | slidingtimewindow_test.go:226 | 33 at 12s expires bucket 1 into bucket 4, stops at bucket 3, and records 33 there |
| Scenarios.SampleAt14 | slidingtimewindow_test.go:227-228 | 55 at 14s joins bucket 4, giving sums 22 and 132 and totals 154 and 4 |
| Scenarios.UpdateAt18 | slidingtimewindow_test.go:237-263 | advancing to 18s expires buckets 3 and 2 into 6 and 5 and keeps bucket 4; totals 132 and 3 |
| Scenarios.UpdateAt23 | slidingtimewindow_test.go:265-291 | advancing to 23s empties the window: buckets 6, 7, 5 and totals 0 |
| Scenarios.ThreeSamplesInRing | slidingtimewindow_test.go:294-304 | in any empty window satisfying the invariant, samples 1, 2, 3 at non-decreasing instants less than a full ring apart are all kept: totals 6 and 3 |
| Scenarios.AccessorsWithinOneRing | slidingtimewindow_test.go:294-304 | a fresh 11s/22-bucket window has no average; after samples 1, 2, 3 at any three non-decreasing instants whose bucket numbers are less than 22 apart, Sum is 6, Count is 3 and Average is 2 |

## Notes on the code

The model follows slidingtimewindow.go as written:

- The tests expect per-bucket `Min`/`Max` lines and a `Period` line in the dump, and call `Period()`, `Min()` and `Max()` (slidingtimewindow_test.go:37-38, 300, 315-316). slidingtimewindow.go has none of these, so the model has none either.
- The code never resets `totalSum` to exactly zero after a walk that rotated every bucket. In the model, a full rotation gives zero totals only because sums are exact (Expiry.AdvanceFullExpiry).
- A sample behind the newest bucket number seen is not always dropped. The code drops it only when its slot already holds a later bucket number. Under the window invariant, that happens exactly when the sample is a full ring or more behind (Position.SampleRecordedIffInWindow). The tests record a sample at 11s after one at 12s.

## Left out

- Floating point: sums are exact reals. float64 rounding, and the drift it causes between `totalSum` and the bucket sums, are not modelled.
- Average: when the count is 0 the model returns None, whatever the sum. Go gives NaN only for 0/0, and ±Inf for a non-zero sum over a zero count, which float64 drift can produce.
- Integer width: bucket numbers, counts and widths are unbounded integers. int64 overflow of `period + numberOfBuckets - 1` and of `UnixNano` is not modelled.
- BucketNumber: instants are non-negative nanoseconds since the epoch. Go's truncating division of a negative `UnixNano` (an instant before 1970) is not modelled.
- `time.Time` and `time.Duration` are plain nanosecond integers. The conversion `now.UnixNano()` is the caller's job.
- NewSlidingTimeWindow: requires numberOfBuckets > 0. Go panics on zero buckets (a division by zero) and on a negative count (in `make`).
- A window whose period is not positive gets a width ≤ 0. doUpdate would then divide by zero or misbehave, so the update operations require `Valid` (positive width). The constructor states exactly when that holds.
- In-place mutation through the method receiver is modelled as returning a new window value. Concurrency is out of scope: the type is not synchronised.
- `Dump`/`DumpAsString` (export_test.go) only format state for the tests. The tests' expected dumps also list `Period`, `Min` and `Max`, and the tests call `Period()`, `Min()` and `Max()`. slidingtimewindow.go has none of these, so they are not modelled. The expected bucket numbers, sums, counts and totals are proved in `Scenarios`.
- `AddSample` and `time.Now()` in example_test.go: that method is not in slidingtimewindow.go, and the example depends on the wall clock.
- Scenarios.AccessorsWithinOneRing: the test takes three successive `time.Now()` readings. The lemma requires them to be non-decreasing, with the first and last less than 22 half-second buckets apart; a wall clock that steps backwards is not covered.
