# Moving-window mean accumulator (`@stdlib/stats-incr-mmean`)

This project models the incremental moving-window mean accumulator of stdlib's
`stats-incr-mmean` package and proves what it computes.

The factory `Ye` takes a window size `W`:

- It throws a `TypeError` unless `W` is a primitive, finite, positive integer.
- Otherwise it returns a closure over:
  - a `Float64Array` buffer of `W` zeros;
  - a running mean (0);
  - a count (0);
  - a cursor (-1).

Calling the closure with no argument is a query. It returns `null` before the first sample and the current mean afterwards.

Calling it with a sample advances the cursor circularly and stores the sample at the new cursor. Before the store, it updates the count and mean by one of four rules:

1. A NaN sample poisons the accumulator: count `W`, mean NaN.
2. While the window is filling, the mean is updated incrementally.
3. When the slot being overwritten holds a NaN, a recovery rescan recomputes the mean from the new sample and the other slots.
4. Otherwise the mean slides by `(sample - evicted) / W`. This step is skipped while the mean is NaN.

The model has six modules:

- `Wrappers`: `Option` and `Result`.
- `Validate`: the window-size guard, over a small model of JavaScript values and doubles.
- `Samples`:
  - a sample is a real number or NaN;
  - the reference definition of the answer: the mean of the last `min(m, W)` samples, or NaN when one of them is NaN.
- `MovingMean`: the closure as a pure state machine.
  - `Create`, `Query` and `Update` act on an immutable state `Acc`.
  - The abstraction `Tracks(a, h)` ties a state to the history `h` of samples it has absorbed.
- `Closure`: the closure in its imperative shape.
  - An object holds an array buffer and mutable count, mean and cursor, plus a ghost history.
  - The recovery rescan is a `while` loop.
  - Each call is proved to move the object exactly as `MovingMean.Update` moves the state.
- `Properties`: whole-stream statements about feeding a fresh accumulator a sequence of samples, including two worked examples.

The factory guards the window size with the primitive-only predicate `ce` (`ae(e)&&e>0`, where `ae` requires `typeof e == "number"`), not with the boxed-accepting `pe` the file also defines. So `Validate.IsPositivePrimitiveInteger` and `MovingMean.Create` reject a boxed `Number` object.

Arithmetic is exact: samples and means are reals. "Equals the average" therefore means the exact average; the doubles the source computes are rounded approximations of it.

## Model

| member | source | states |
|---|---|---|
| Validate.IsFiniteInteger | mod.js:3 | Models `te`: the value is neither infinity, is not NaN, and equals its floor. Its meaning is stated by `Validate.GuardAdmitsExactlyPositiveIntegers` and `Validate.GuardRejects`. |
| Validate.IsPrimitiveInteger | mod.js:3 | Models `ae`: `typeof` is `"number"` (a primitive, not a boxed object) and `te` holds. Stated through the two guard lemmas. |
| Validate.IsPositivePrimitiveInteger | mod.js:3 | Models `ce`, the factory's guard: `ae` holds and the value is above 0. Stated through the two guard lemmas. |
| Validate.GuardAdmitsExactlyPositiveIntegers | mod.js:3 | The window-size guard (`ce`, built from `ae` and `te`) holds exactly when the value is the primitive number `k` for some integer `k >= 1`. |
| Validate.GuardRejects | mod.js:3 | The guard refuses 0, negative integers, non-integers, NaN, both infinities, boxed numbers (even a boxed positive integer) and non-numbers. |
| MovingMean.Init | mod.js:3 | Models the closure's initial state `i=new de(e),t=0,n=-1,a=0`: `W` zeros, mean 0, cursor -1, count 0. `MovingMean.Create` states that this state stands for the empty history. |
| MovingMean.Query | mod.js:3 | Models the no-argument call `0===a?null:t`. `MovingMean.QueryReportsWindowMean` states what it returns. |
| MovingMean.Create | mod.js:3 | Construction fails with a `TypeError` carrying the offending value exactly when the guard fails. On success the window is the argument, the buffer is `W` zeros, the count is 0, the cursor is -1 and the mean is 0; this state stands for the empty history. |
| MovingMean.Update | mod.js:3 | An update moves the cursor to `(cursor + 1) mod W` and stores the sample there, leaving every other slot and the buffer length unchanged. The count never decreases, stays within `[1, W]`, grows by one for a number while filling, and becomes `W` with mean NaN for a NaN sample. |
| MovingMean.QueryReportsWindowMean | mod.js:3 | A query answers `null` exactly when no sample has been absorbed, and otherwise the reference mean of the last `min(m, W)` samples. |
| MovingMean.CursorWhileFilling | mod.js:3 | During the first `W` updates the cursor `(n + 1) % W` is the index of the latest sample. |
| MovingMean.BufferAdvances | mod.js:3 | After a write at the next slot, the buffer still holds the history: followed by zeros while filling; read circularly from the slot after the cursor, exactly the last `W` samples once full. |
| MovingMean.PoisonedWindow | mod.js:3 | After a NaN sample the reference window mean is NaN, matching the poison branch. |
| MovingMean.FillingMean | mod.js:3 | In the filling branch, the incremental step `t + (x - t) / (count + 1)` is the mean of every sample absorbed so far. |
| MovingMean.RecoveryMean | mod.js:3 | When the overwritten slot holds NaN, the rescan's closed form (the new sample plus every other slot, over `W`, or NaN if another slot is NaN) is the mean of the new window. |
| MovingMean.SteadyPoisoned | mod.js:3 | When the mean is NaN and the evicted slot is not, skipping the update is right: the new window still holds a NaN. |
| MovingMean.SteadyFinite | mod.js:3 | When neither the mean nor the evicted slot is NaN, the sliding step `t + (x - evicted) / W` is the mean of the new window. |
| MovingMean.UpdateReturnsWindowMean | mod.js:3 | Whatever branch runs, the mean an update returns is the reference mean of the last `min(m, W)` samples. |
| MovingMean.UpdateTracksWindow | mod.js:3 | The central invariant: an update maps the state of history `h` to the state of history `h + [sample]` (cursor, count, buffer layout and mean all kept). |
| Closure.Rescan | mod.js:3 | The recovery loop ends with count `W` and returns the closed form: stopping at the first other NaN slot, otherwise folding the new sample and every other slot into the mean. |
| Closure.Absorb | mod.js:3 | The imperative four-branch update of count and mean, running the rescan loop in the recovery branch, agrees with `MovingMean.Update`. |
| Closure.Accumulator.Update | mod.js:3 | The closure's update moves the object exactly as `MovingMean.Update` moves the state, appends the sample to the history, and returns the reference mean of the new window. |
| Closure.Accumulator.Query | mod.js:3 | The closure's query returns `null` exactly when the history is empty, and otherwise the reference window mean, changing nothing. |
| Closure.Accumulator.constructor | mod.js:3 | The object form of `i=new de(e),t=0,n=-1,a=0`: a fresh all-zero array of `W` samples, mean 0, count 0, cursor -1 and an empty history, equal to `MovingMean.Init(W)`. `Valid()` with `history == []` states that this is the state of the empty history (`Tracks(State(), [])`). |
| Closure.NewAccumulator | mod.js:3 | The factory in object form: a `TypeError` exactly when the guard fails, otherwise a fresh valid object, with its own fresh buffer, an empty history and the requested window. |
| Properties.RunTracksHistory | mod.js:3 | Feeding any stream to a fresh accumulator leaves it in the state that stream's history determines. |
| Properties.RunReportsWindowMean | mod.js:3 | After `m >= 1` updates the count is in `[1, W]`, and the mean is NaN exactly when the last `min(m, W)` samples contain a NaN and is their average otherwise. |
| Properties.QueryNullOnlyBeforeFirstSample | mod.js:3 | A query returns `null` exactly before the first sample. |
| Properties.FillingAveragesEverything | mod.js:3 | While at most `W` NaN-free samples have arrived, the count is their number and the mean is the average of all of them. |
| Properties.WindowOfOnePassesThrough | mod.js:3 | With `W = 1`, every update returns the sample itself. |
| Properties.PoisonLastsOneWindow | mod.js:3 | A NaN at position `k` makes the calls `k` through `k + W - 1` return NaN. |
| Properties.PoisonClearsAfterOneWindow | mod.js:3 | `W` calls after a NaN, with no NaN since, the call returns the average of the last `W` samples again. |
| Properties.OutputIsWindowMean | mod.js:3 | The `i`-th call on a stream returns the reference mean of the first `i + 1` samples' window. |
| Properties.ScenarioSlidingWindow | mod.js:3 | With `W = 3`, feeding 1, 2, 3, 4 returns 1, 1.5, 2, 3. |
| Properties.ScenarioPoison | mod.js:3 | With `W = 2`, feeding 1, NaN, 5 returns 1, NaN, NaN. |

## Left out

- IEEE-754 rounding: samples and means are exact reals, so the model proves that the mean equals the exact average. The source computes a rounded approximation, and no bit-exact claim is made.
- Infinite samples: a sample is a real or NaN. With infinities the source's mean can turn NaN without a stored NaN (through `Inf - Inf`), and the mean then stays NaN until a later NaN sample is evicted and the recovery rescan recomputes it; the steady branch never clears it.
- Non-number samples: JavaScript's implicit coercion of strings, objects and the like in the arithmetic is not modelled.
- Dispatch on `arguments.length`: the single variadic closure is modelled as two operations, query and update.
- The `Float64Array` feature probe and its fallback constructor: the buffer is a sequence (or array) of samples. Engine limits on allocating a typed array of `W` elements (a `RangeError` for huge `W`) are not modelled.
- The `TypeError` message: the vendored printf-style formatter `ze` only builds its text (the other copy, `j`, serves the `Object.defineProperty` polyfill's errors), so the error value carries the rejected argument instead of a formatted string.
- Engine plumbing that plays no part in the computation: the `Object.defineProperty` polyfill, `Symbol.toStringTag` detection, and the boxed-number detection behind the unused validators.
- The boxed-number validators `pe`, `se`, `oe` and `ne`: the factory does not call them (see above).
