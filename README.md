# rolling-window in Dafny

This project models the core of the Go package `windows`.

A `RollingWindow` is a ring of `size` buckets (`Item`: a value sum `Val` and a count `Total`). Each bucket covers one time slot of length `interval`.
- `Add(v)` first rotates the ring. `updatePos` clears, oldest first, every bucket whose slot has elapsed since `lastTime`, and the last cleared bucket becomes the current one at `pos`. Then `Add` adds `v` into the current bucket.
- `Cal` visits the buckets still inside the window, oldest first, without rotating.
- A window may carry an online statistic strategy (`WithStatic`): Sum, Avg, Max or Min.
  - Every eviction is routed through the strategy's `Reset` and every write through its `Add`.
  - `Static`, `StaticValue` and `StaticTotal` rotate the window and then ask the strategy.
  - Max and Min keep their candidates in a fixed-capacity ring buffer, `CircularQueue`.
- The functions of calculates.go recompute the same aggregates from scratch by folding over what `Cal` visits.

The model has one module per source concern:

| module | file | models |
|---|---|---|
| `Queue` | circular_queue.dfy | `CircularQueue`: a class over an `array<real>` with `first`/`end` cursors. Its abstract contents are `Contents()`. |
| `Buckets`, `Kinds` | buckets.dfy, kinds.dfy | `Item`; `StaticType`; the comparison shared by Max and Min. |
| `Folds` | folds.dfy | The folds of calculates.go as recursive functions, and which buckets `Cal` visits. |
| `StaticsSpec` | statics_spec.dfy | A strategy's state as a value (`StaticState`), and `Add`, `Reset`, `Value` and `Total` as functions on it. |
| `Statics` | statics.dfy | `WindowStatic`: a class, tagged by kind, whose methods, including Reset's pop loop, are proved to follow `StaticsSpec`. |
| `StaticsInvariant` | statics_invariant.dfy | The invariant tying a strategy to its window's buckets, and the proof that `Add` and `Reset` keep it and that `Value`/`Total` equal the folds. |
| `Window` | rolling_window.dfy | `RollingWindow`: a class over an `array<Item>`, with `updatePos`'s two loops, `Cal`, `Add` and `Static*`. |
| `Calculates` | calculates.dfy | `GetRollingWindowSum/Avg/Max/Min` as visitor loops, proved against the folds. |
| `Scenarios` | scenarios.dfy | The scenarios of rolling_window_test.go, proved on the model. |
| `ModArith` | arith.dfy | Modular helpers, and Go's truncating integer division. |

Time is an integer `now` passed to every operation that reads the clock. Values are `real`, counts are `int`.

The main results are:
- **Online equals fold.** With the slots that `PushEmpty` skips filled with zeros (see Findings), and for every reachable window, what the strategy answers equals the fold of calculates.go over what `Cal` visits at the same `now`, value and total alike, for all four kinds. The source as written does not have this property: see Findings. This is `Window.RollingWindow.Static`, `Calculates.StaticAgreesWithFold`, `StaticsInvariant.ValueAgrees` and `StaticsInvariant.FrontIsExtreme`.
- **The Max/Min invariant.** With the same zero-filled padding, a Max/Min strategy's deque never overflows its queue (`StaticsInvariant.ResetKeeps`, `StaticsInvariant.AddKeeps`). As written, it can, and `Push` then panics (`Queue.StalePanicWitness`).
- **Rotation.** `updatePos` clears exactly the expired buckets, oldest first, and evicts each of them from the strategy in that order.

## Model

| member | source | states |
|---|---|---|
| `ModArith.TruncDiv` | rolling_window.go:61 | Go's `Duration / Duration` truncates toward zero: the remainder `a - q*b` lies in `[0, b)` for a non-negative dividend and in `(-b, 0]` for a negative one. |
| `Queue.CircularQueue.constructor` | circular_queue.go:14-18 | A queue for `size` values has capacity `size + 1`, `first == end == 0`, zeroed slots, is empty, and has length 0 and no contents. |
| `Queue.CircularQueue.IsEmpty` | circular_queue.go:21-23 | Empty iff the length is 0. |
| `Queue.CircularQueue.Len` | circular_queue.go:25-27 | The length is in `[0, capacity - 1]` and is the distance from `first` to `end` around the ring. |
| `Queue.CircularQueue.IsFull` | circular_queue.go:30-32 | Full iff the length is `capacity - 1`. |
| `Queue.CircularQueue.Push` | circular_queue.go:36-42 | On a queue that is not full, the contents gain `e` at the back. `Last() == e`, the length grows by one, earlier values are unchanged, and only slot `end` is written. |
| `Queue.CircularQueue.PushEmpty` | circular_queue.go:44-49 | As written: `end` advances by `i` mod capacity and the length grows by `i`. The contents gain the `i` stale slot values that follow the old `end`, and no slot is written. |
| `Queue.CircularQueue.PushEmptyZeroed` | circular_queue.go:44-49 | Corrected form: same cursors and length as `PushEmpty`, but the contents gain `i` zeros. |
| `Queue.CircularQueue.Shift` | circular_queue.go:53-60 | On a non-empty queue: returns the oldest value, which leaves the contents. On an empty queue: returns 0 and changes nothing. |
| `Queue.CircularQueue.Pop` | circular_queue.go:62-69 | On a non-empty queue: returns the newest value, which leaves the contents. On an empty queue: returns 0 and changes nothing. |
| `Queue.CircularQueue.First` | circular_queue.go:71-76 | Reads nothing but the state. Gives the oldest value, or 0 when empty. |
| `Queue.CircularQueue.Last` | circular_queue.go:78-83 | Reads nothing but the state. Gives the newest value, or 0 when empty. |
| `Queue.FifoOrder` | circular_queue.go:36-60 | On any queue with room for `xs`: pushing `xs` and then shifting until empty yields the earlier contents followed by `xs`, in push order. |
| `Queue.LifoOrder` | circular_queue.go:36-69 | On any queue with room for `xs`: pushing `xs` and then popping `|xs|` times yields `xs` reversed and restores the earlier contents. |
| `Queue.AcceptsExactly` | circular_queue.go:14-42 | A queue for `n` values is full after exactly `n` pushes and not before. |
| `Queue.StaleSlotWitness` | circular_queue.go:44-49 | Push(2), Pop(), PushEmpty(1) leaves 2 at the front. |
| `Queue.ZeroedSlotWitness` | circular_queue.go:44-49 | The same steps with zeroed padding leave 0 at the front. |
| `Queue.StalePanicWitness` | statics.go:131-165 | The queue calls a size-2 Max strategy makes as written for Add(2), Add(1) two slots later, Add(-1) two slots later, Add(-5) one slot later: the exposed stale 2 is never shifted out, and the queue is full when Reset next pushes. |
| `Queue.ZeroedReplay` | statics.go:131-165 | The same calls with zeroed padding: the padded 0 and the finalized -1 are shifted out with their buckets, and the last push has room. |
| `Buckets.Item.Add` | rolling_window.go:180-183 | Adds `v` to the value and one to the count. |
| `Kinds.Pick` | calculates.go:34 | `math.Max` (or `math.Min` for Min): the result is one of the two arguments and beats or ties both. |
| `Folds.Quotient` | calculates.go:20 | For a nonzero divisor, the result times the divisor is the dividend. For a zero divisor, the result is 0. |
| `Folds.Extreme` | calculates.go:29-39 | The running max (min) of a non-empty run beats or ties every value of it and is one of them. |
| `Folds.Visible` | rolling_window.go:53-58 | The buckets a statistic covers are the oldest `GetStaticItemNum()` buckets of the window. |
| `Folds.CalView` | rolling_window.go:72-85 | With no slot elapsed, `Cal` visits the covered buckets. Otherwise it skips the `span` oldest buckets and visits the remaining `size - span` in order. |
| `Folds.ExtremeResultBounds` | calculates.go:29-47 | The Max (Min) fold beats or ties every visited value and is one of them or 0. When fewer than `GetStaticItemNum()` buckets were visited, it is `>= 0` (`<= 0`). |
| `Folds.ExtremeResultPadded` | calculates.go:43-46 | When the run is already short of `GetStaticItemNum()`, appending empty buckets does not change the Max/Min fold. |
| `Folds.CalAnticipatesRotation` | rolling_window.go:68-86 | Folding what `Cal` visits before a rotation equals folding the covered buckets after the expired ones are cleared. This holds for every kind, for value and total. |
| `StaticsSpec.Fresh` | statics.go:26-40 | A new strategy has every counter 0 and an empty deque. |
| `StaticsSpec.Front` | circular_queue.go:71-76 | The deque's oldest value, or 0 when empty. |
| `StaticsSpec.PopWhile` | statics.go:154-156 | The pop loop leaves a prefix of the deque whose last entry is not beaten by `curVal`. |
| `StaticsSpec.PopWhileBeaten` | statics.go:154-156 | Every entry the pop loop drops is strictly beaten by `curVal`. |
| `StaticsSpec.ResetSpec` | statics.go:90-93 | Reset keeps the kind, the size and the flag, and takes the evicted bucket's count off the total. |
| `StaticsSpec.ResetSteps` | statics.go:145-165 | Max/Min Reset is, in the source's order: shift, count the current bucket, finalize when `index` follows `curPos` and `curVal != 0`, then evict. |
| `StaticsSpec.AddSpec` | statics.go:131-139 | Add counts one more value. Sum/Avg add `v` to the value sum. Max/Min move `curPos` to `index`, add `v` to `curVal` and leave `cap` alone. |
| `StaticsSpec.ClampedFront` | statics.go:115-120 | The front of the deque, or 0. When fewer than `size - 1` finished buckets are nonzero, the front is clamped so that it is `>= 0` (`<= 0` for Min). |
| `StaticsSpec.ValueOf` | statics.go:115-125 | Max/Min `Value` beats or ties the current bucket's value unless that bucket is ignored. While fewer than `size - 1` finished buckets are nonzero, it is `>= 0` (`<= 0` for Min). |
| `StaticsSpec.TotalOf` | statics.go:47-52 | The running count, minus the current bucket's count when it is ignored. |
| `Statics.WindowStatic.constructor` | statics.go:111-113 | The new strategy's state is `Fresh`, and Max/Min own a fresh queue for `size` values. |
| `Statics.WindowStatic.SetIgnoreCurrent` | statics.go:54-56 | Only the flag changes. |
| `Statics.WindowStatic.Add` | statics.go:131-139 | The state becomes `AddSpec` of the old state, padded with zeros. The padding is the corrected `PushEmpty`; see Findings. |
| `Statics.WindowStatic.Reset` | statics.go:90-93 | The state becomes `ResetSpec` of the old state for every kind. |
| `Statics.WindowStatic.ResetExtreme` | statics.go:145-165 | The state becomes `ResetSpec` of the old state. |
| `Statics.WindowStatic.ShiftEvicted` | statics.go:146-148 | The deque's front is dropped exactly when it equals the evicted value. |
| `Statics.WindowStatic.CountCurrentBucket` | statics.go:149-151 | `cap` grows by one exactly when `curVal != 0`. |
| `Statics.WindowStatic.Finalize` | statics.go:152-160 | The deque becomes `PopWhile(deque, curVal) + [curVal]`, `curVal` becomes 0 and `curPos` advances by one mod `size`. |
| `Statics.PopBeaten` | statics.go:154-156 | The pop loop leaves in the queue exactly `PopWhile` of its previous contents: the oldest prefix up to the last entry `cv` does not beat. |
| `Statics.Enqueue` | statics.go:154-157 | After the pop loop and the push, the queue holds exactly `PopWhile` of its previous contents followed by `cv`. |
| `Statics.WindowStatic.EvictBucket` | statics.go:161-164 | The evicted count leaves the total. `cap` drops by one when the evicted value is nonzero and `cap > 0`. |
| `Statics.WindowStatic.Value` | statics.go:74-79 | Equals `ValueOf` of the state for every kind: Sum at 74-79, Max at 115-125, Min at 187-197, Avg at 256-261. |
| `Statics.WindowStatic.Total` | statics.go:47-52 | Equals `TotalOf` of the state. |
| `Statics.WindowStatic.Static` | statics.go:127-129 | Value and total together. |
| `Statics.NewStatic` | statics.go:26-40 | No strategy for `StaticBase`. For any other kind, a fresh valid strategy of that kind. |
| `StaticsInvariant.FreshConsistent` | rolling_window.go:23-40 | A fresh strategy is consistent with a fresh window of empty buckets. |
| `StaticsInvariant.ResetKeeps` | statics.go:145-165 | Evicting the oldest bucket and clearing it keeps the strategy consistent with the buckets, and Reset never pushes into a full queue. |
| `StaticsInvariant.AddKeeps` | statics.go:131-139 | Adding at the current bucket keeps the strategy consistent, and `PushEmpty` never overflows. |
| `StaticsInvariant.FrontIsExtreme` | statics.go:115-120 | For a consistent Max/Min strategy, the clamped front of the deque is the max (min) of the finished buckets. |
| `StaticsInvariant.SingleBucketWitness` | statics.go:115-165 | On a Max window of one bucket, as written: after Add(-3), Value is 0 while the fold is -3; one slot after Add(5), Value is 5 while Cal visits nothing and the fold is 0. |
| `StaticsInvariant.SingleBucketOverflow` | statics.go:145-165 | On a Max window of one bucket, as written: Add(5) then Add(3) in the next slot makes the following Reset overflow the queue. Add(1) then Add(3), or Add(5) then Add(5), does not. |
| `StaticsInvariant.ValueAgrees` | statics.go:74-79 | A consistent strategy's `Value` and `Total` at the current bucket equal the fold of its kind over the covered buckets. |
| `StaticsInvariant.ExtremeValueAgrees` | statics.go:115-125 | Max/Min `Value` equals `GetRollingWindowMax/Min`'s fold over the covered buckets. |
| `Window.ViewReset` | rolling_window.go:155-160 | Clearing the bucket after `pos` and making it current rotates the oldest-first view by one, with an empty bucket newest. |
| `Window.ViewAdd` | rolling_window.go:162-167 | Adding into the bucket at `pos` changes only the newest bucket of the view. |
| `Window.RollingWindow.constructor` | rolling_window.go:23-40 | `size` empty buckets, `pos` 0, `lastTime` now. The strategy is absent exactly for `StaticBase`, and otherwise is fresh with the window's flag. |
| `Window.RollingWindow.GetStaticItemNum` | rolling_window.go:53-58 | The number of buckets a statistic covers. |
| `Window.RollingWindow.Offset` | rolling_window.go:60-66 | Always in `[0, size]`. It is the truncated count of elapsed slots when that count is in `[0, size)`, and `size` otherwise. |
| `Window.RollingWindow.Cal` | rolling_window.go:68-86 | Visits exactly `CalView`: oldest first, starting at `(pos + span + 1) % size`. It changes nothing. |
| `Window.RollingWindow.ResetData` | rolling_window.go:155-160 | The strategy's `Reset` sees the bucket after `p` before the bucket is cleared. Only that bucket changes. |
| `Window.RollingWindow.ResetStatic` | rolling_window.go:156-158 | The strategy's state becomes `ResetSpec` for the oldest bucket, and it stays consistent with the rotated buckets. |
| `Window.RollingWindow.UpdatePos` | rolling_window.go:130-153 | With `k = offset()`: `pos` advances by `k` mod `size`; the `k` oldest buckets are cleared, oldest first, and evicted from the strategy in that order; the others keep their order. `lastTime` becomes `now` iff `k > 0`. Afterwards `offset()` is 0, so a second call at the same `now` changes nothing. |
| `Window.RollingWindow.ResetExpired` | rolling_window.go:133-149 | The two loops together clear exactly `offset` buckets following `pos`, across the end of the array. |
| `Window.RollingWindow.ResetRange` | rolling_window.go:142-149 | One loop clears buckets `lo` up to `hi` in turn and ends at the last one cleared. |
| `Window.RollingWindow.MoveTo` | rolling_window.go:150-151 | `pos` and `lastTime` are set; no slot has then elapsed. |
| `Window.RollingWindow.ResetStep` | rolling_window.go:142-145 | One iteration evicts and clears one more bucket. |
| `Window.RollingWindow.AddCurrent` | rolling_window.go:162-167 | The strategy's `Add` at `pos`, then `Item.Add` on the current bucket. No other bucket changes. |
| `Window.RollingWindow.AddStatic` | rolling_window.go:163-165 | The strategy's state becomes `AddSpec` at `pos` and stays consistent. |
| `Window.RollingWindow.Add` | rolling_window.go:42-47 | Rotate, then add `v` into the new current bucket. The strategy's state is `AddSpec` after the run of evictions. |
| `Window.RollingWindow.Answer` | rolling_window.go:97 | The strategy's answer at the current bucket is the fold of its kind over the covered buckets. |
| `Window.RollingWindow.Static` | rolling_window.go:88-100 | With a strategy: rotates as `updatePos` does (new `pos`, cleared buckets, `lastTime`, the strategy's run of evictions, no slot left elapsed), and returns the fold over what `Cal` visited before the rotation. Without one: `(0, 0)` and nothing changes. |
| `Window.RollingWindow.StaticValue` | rolling_window.go:102-114 | The value of `Static`, with the same rotation of the whole state; 0 without a strategy. |
| `Window.RollingWindow.StaticTotal` | rolling_window.go:116-128 | The total of `Static`, with the same rotation of the whole state; 0 without a strategy. |
| `Window.RollingWindow.SetIgnoreCurrent` | rolling_window.go:190-197 | The window's flag and the strategy's flag both become `b`. The buckets and position do not change. |
| `Calculates.SumUp` | calculates.go:8-11 | The visitor loop computes both sums over the visited buckets. |
| `Calculates.GetRollingWindowSum` | calculates.go:7-13 | The value sum and count sum over exactly what `Cal` visits. |
| `Calculates.GetRollingWindowAvg` | calculates.go:15-22 | The value sum divided by `GetStaticItemNum()`, however many buckets were visited. Same total as the sum. |
| `Calculates.ExtremeUp` | calculates.go:24-48 | The visitor loop computes `ExtremeResult`: 0 over no bucket, clamped toward 0 when short. |
| `Calculates.GetRollingWindowMax` | calculates.go:24-48 | The Max fold over what `Cal` visits, and the count sum. |
| `Calculates.GetRollingWindowMin` | calculates.go:50-74 | The Min fold over what `Cal` visits, and the count sum. |
| `Calculates.Calculate` | statics_test.go:34-46 | The fold matching each of Sum, Avg, Max and Min; StaticBase has none. |
| `Calculates.ValueThenTotal` | statics_test.go:29-32 | `StaticValue` and then `StaticTotal` at the same `now`: both are the fold over what `Cal` visited before the first call. |
| `Calculates.StaticAgreesWithFold` | statics_test.go:48-53 | `folded` is the fold of the strategy's kind over what `Cal` visits; `StaticValue` and then `StaticTotal` at the same `now` equal it. |
| `Scenarios.AddScenario` | rolling_window_test.go:23-50 | `Cal` lists `[0,0,0]`, `[0,0,1]`, `[0,1,5]`, `[1,5,15]`, `[5,15,7]`. |
| `Scenarios.ResetScenario` | rolling_window_test.go:52-79 | With the current bucket ignored, `Cal` lists `[0,1]`, `[1]`, nothing, and nothing after a whole window elapses. |
| `Scenarios.ReduceScenario` | rolling_window_test.go:81-117 | The visitor's sum is 10, or 4 when the current bucket is ignored. |

## Left out

- Locking (`sync.RWMutex`) and the release and re-acquire in `Static*` are not modelled. Every call is a single sequential step.
- The clock (`timec.go`, `WithTimeC`) is not part of this model. `now` is passed in, and the second clock read in `updatePos` (rolling_window.go:151) is taken to give the same `now`.
- `startTime` and `GetLastVisit` are not modelled; nothing reads them.
- IEEE float64 is modelled as exact reals: no NaN, no infinities, no rounding. Equality at statics.go:146 is exact.
- Folds.Quotient: a zero divisor (Avg with `size == 1` and the current bucket ignored) gives 0, where Go gives an infinity or NaN.
- Time is a plain unbounded integer, so `time.Duration` overflow is not modelled.
- The functional options are constructor parameters.
  - `UpdateOpts` is not modelled, nor is re-applying `WithStatic` to a live window, which installs a fresh strategy that no longer matches the buckets.
  - `IgnoreCurrentBucket` on a live window is `SetIgnoreCurrent`.
- Window.RollingWindow.constructor: `WithStatic(StaticBase)` calls `SetIgnoreCurrent` on a nil strategy and panics (rolling_window.go:201-202). The model reads `StaticBase` as "no `WithStatic` option".
- Window.RollingWindow.constructor requires `interval > 0`. The source would divide by zero in `offset`.
- Window.RollingWindow.constructor requires `size >= 2` for Max and Min. The model therefore does not describe one-bucket Max/Min windows, which the source gets wrong:
  - It gives wrong answers first: the empty queue's 0 acts as a finished bucket, and Reset finalizes the bucket it is evicting (`StaticsInvariant.SingleBucketWitness`; see Findings).
  - A value followed in the next slot by a strictly smaller one (larger, for Min) makes the next Reset push onto a full queue, which panics. A rising or repeated pair does not (`StaticsInvariant.SingleBucketOverflow`).
- Queue.CircularQueue.Push: the panic on a full queue is a precondition.
- Queue.CircularQueue.PushEmpty and Queue.CircularQueue.PushEmptyZeroed: the panic when the slots do not fit is a precondition.
  - With the padding zero-filled (see Findings), the strategies' callers are proved never to reach these panics (`StaticsInvariant.AddKeeps`, `StaticsInvariant.ResetKeeps`). As written, `Push` can panic (`Queue.StalePanicWitness`).
- Statics.WindowStatic.Add pads the deque with zeros (the corrected `PushEmpty`), not with the stale slots the source exposes; see Findings.
- `Cal`'s visitor callback is modelled as the returned sequence of visited buckets, which the visitor loops of calculates.go then run over.
- Statics.WindowStatic.Value, Total and Static take the current bucket as an `Item`. The `i != nil` checks of statics.go are not modelled, because the window always passes a bucket.
- The randomised test driver of statics_test.go is not modelled. Its assertion is `Calculates.StaticAgreesWithFold`, proved for every reachable window.

## Findings

| source | as written | input that shows it | evidently intended | confidence | as-written member | corrected member |
|---|---|---|---|---|---|---|
| circular_queue.go:44-49, used by statics.go:131-139 and statics.go:203-211 | `PushEmpty` advances `end` without writing. The skipped slots keep values that were popped earlier, and these values re-enter the Max/Min deque as if they were buckets. A stale value is never evicted, so the deque can also overflow, and `Push` panics. | Queue: new queue for 2 values, Push(2), Pop(), PushEmpty(1); then First() is 2, not 0. Window: size 2, Max, Add(2) in slot 0, Add(1) in slot 2, Add(-1) in slot 4; StaticValue is 2 while GetRollingWindowMax is 0. Panic: the same window, then Add(-5) one slot later; any call one slot after that makes Reset push -5 onto a full queue. | The skipped buckets stand for empty buckets, so the padded slots should hold 0. | not executed | `Queue.CircularQueue.PushEmpty`, `Queue.StaleSlotWitness`, `Queue.StalePanicWitness` | `Queue.CircularQueue.PushEmptyZeroed`, `Queue.ZeroedSlotWitness`, `Queue.ZeroedReplay` (used by `Statics.WindowStatic.Add`; no overflow by `StaticsInvariant.AddKeeps` and `StaticsInvariant.ResetKeeps`) |
| statics.go:115-125 and statics.go:145-165, reached from rolling_window.go:199-203 | A Max/Min strategy accepts a window of one bucket. Its empty queue's 0 is read as a finished bucket, and Reset pushes the current bucket's value as it evicts that same bucket. | Size 1, Max: Add(-3); StaticValue is 0 while GetRollingWindowMax is -3. Size 1, Max: Add(5), then StaticValue one slot later is 5 while GetRollingWindowMax, over no bucket, is 0. Panic: size 1, Max, Add(5) then Add(3) in the next slot; any call one slot later makes Reset push 3 onto a full queue. | The online value equals the fold. The deque design needs at least one finished bucket, so Max/Min windows should have at least two buckets. | not executed | `StaticsInvariant.SingleBucketWitness`, `StaticsInvariant.SingleBucketOverflow` | `Window.RollingWindow.constructor` (Max/Min only with `size >= 2`), with online equals fold proved for every such window by `StaticsInvariant.FreshConsistent`, `StaticsInvariant.ResetKeeps`, `StaticsInvariant.AddKeeps` and `StaticsInvariant.ValueAgrees` |
