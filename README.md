# Signal-processing helpers of the 2023-5-23 figure generator, in Dafny

The figure generator turns batches of lidar-style (angle, distance) samples
into a smooth closed curve, filters that curve over time and estimates how
fast it rotates. This project models, over exact reals, its three stateful
classes:

- `Interpolator` (module `Interpolation`, file `Interpolation.dfy`): a
  first-in-first-out buffer of `memory_size` rows, refilled batch by batch
  by `update`, and the part of `take` that prepares the spline fit. That part
  sorts the rows by angle and keeps the first row of every run of equal
  angles, so the angles handed to the fit are strictly increasing. The
  buffer is an `array<Sample>`. A ghost history records every row received,
  and the invariant says the buffer is the newest `memory_size` of them,
  padded in front with (0, 0) rows.
- `MaFilter` (module `MovingAverage`, file `MovingAverage.dfy`): a
  channels-by-slots ring buffer (`array2<real>`) written one column per call
  at a round-robin index. Its output is the per-channel mean over all slots.
  The invariant ties every slot to the last `n_samples` frames received. So
  the output is proved to be the mean of each channel's last `n_samples`
  values, counting slots never written as zeros.
- `VelocityEstimator` (module `Velocity`, file `Velocity.dfy`): the time
  derivative against the stored previous curve, and the central difference
  over the 360-point circular grid. It fills two neighbour buffers column by
  column with `np.roll` shifts `-w..w`, and takes the per-row least-squares
  velocity `-sum(dθ·dt) / sum(dθ²)`. The lemmas show that this ratio
  satisfies the normal equation, that no other velocity has a smaller
  squared residual, that it recovers an exact flow, what it is for a window
  of one point, and that an unchanged curve gives zero velocity.

`Numeric.dfy` holds what the three share:
- `np.roll` on one axis;
- sums and dot products;
- the in-place column write `a[:, j] = col`;
- the lemmas on floor modulo that the circular indexing needs.

## Model

| member | source | states |
|---|---|---|
| Interpolation.Interpolator.constructor | assets/2023-5-23-figure_generator.py:12-14 | The buffer has `memory_size` rows, all (0, 0). Nothing has been received yet. `lam` is stored. |
| Interpolation.Interpolator.Update | assets/2023-5-23-figure_generator.py:16-18 | For a batch of 1 to `memory_size` rows, the new buffer is a fresh array of the same length. Its first rows are the old rows from position \|batch\| on, and its tail is the batch. On a zero-row buffer a batch of zero rows or one row is accepted and the buffer stays empty. The received history grows by the batch, and the buffer still holds the newest `memory_size` rows received. |
| Interpolation.ShiftIn | assets/2023-5-23-figure_generator.py:17-18 | Rolling left by the batch length into a new array and overwriting the tail gives `rows[\|batch\|..] + batch`. |
| Interpolation.NewestAppend | assets/2023-5-23-figure_generator.py:16-18 | Appending a batch of 1 to c rows to a stream drops the oldest \|batch\| of its newest c rows and appends the batch. So the rolling update keeps the buffer equal to the newest rows. |
| Interpolation.SortByAngle | assets/2023-5-23-figure_generator.py:22-25 | The result is a permutation of the rows that keeps each angle with its distance, and its angles are non-decreasing. |
| Interpolation.Dedup | assets/2023-5-23-figure_generator.py:28-33 | The kept rows are non-empty and no more than the input. They start with the input's first row and end with a row of the input's last angle. |
| Interpolation.DedupColumns | assets/2023-5-23-figure_generator.py:28-33 | The appending loop produces parallel angle and distance columns whose rows are exactly `Dedup` of the sorted rows. |
| Interpolation.DedupStrictlyIncreasing | assets/2023-5-23-figure_generator.py:30-35 | On rows sorted by angle, the kept angles are strictly increasing. This is what the spline fit requires. |
| Interpolation.DedupAngleSet | assets/2023-5-23-figure_generator.py:28-33 | No angle is lost or invented: the kept rows have exactly the input's set of angles. |
| Interpolation.DedupSubMultiset | assets/2023-5-23-figure_generator.py:28-33 | Every kept row, with its own distance, is a row of the input, and no row is kept more often than the input holds it. |
| Interpolation.DedupKeepsFirstOccurrence | assets/2023-5-23-figure_generator.py:28-33 | On sorted rows, every kept row is the first row of the input carrying its angle. |
| Interpolation.DedupAnglesDetermined | assets/2023-5-23-figure_generator.py:23-33 | Any two sortings of the same rows give the same deduplicated angle sequence. Only the distance chosen within a run of equal angles can depend on the sort's tie order. |
| Interpolation.DedupOfSortedPermutation | assets/2023-5-23-figure_generator.py:22-35 | Deduplicating any sorting of the buffer yields strictly increasing angles. They are exactly the buffer's distinct angles, and each kept row is a buffer row. |
| Interpolation.Interpolator.Take | assets/2023-5-23-figure_generator.py:19-35 | The columns handed to the fit are non-empty and of equal length, and they are the rows of `Dedup` of some sorting of the buffer. The angles strictly increase, and an angle appears iff the buffer has a row at it. Each (angle, distance) pair is a buffer row. |
| MovingAverage.RecentAppend | assets/2023-5-23-figure_generator.py:45 | A new frame shifts a channel's window of recent values by one, with the frame's value last. |
| MovingAverage.SlotAfterWrite | assets/2023-5-23-figure_generator.py:45-46 | After slot i is written and the index moves to (i + 1) mod n, every slot sits at its right place in the rotated window. The written slot holds the new value, and every other slot holds what it held. |
| MovingAverage.MaFilter.constructor | assets/2023-5-23-figure_generator.py:40-42 | The window is an all-zero `n_channels × n_samples` buffer, the index is 0 and no frame has been received. |
| MovingAverage.MaFilter.Record | assets/2023-5-23-figure_generator.py:45-46 | Column i of every channel becomes the frame and every other column is unchanged. The index becomes (i + 1) mod `n_samples`, and the invariant tying slots to the last `n_samples` frames is kept. |
| MovingAverage.MaFilter.WindowSum | assets/2023-5-23-figure_generator.py:47 | A channel's row is its recent window rotated to the write index, so it has the same sum. |
| MovingAverage.MaFilter.ChannelMeans | assets/2023-5-23-figure_generator.py:47 | `np.mean(samples, axis=1)`: there is one mean per channel, and `n_samples` copies of a channel's mean add up to the sum of its row. |
| MovingAverage.MaFilter.Filter | assets/2023-5-23-figure_generator.py:44-47 | Filter writes the frame into column i of the same buffer array and changes no other column, and it advances i round-robin. Each output is the mean of every slot of its channel, which equals the channel's last `n_samples` inputs, zero-padded, divided by `n_samples`. |
| Numeric.Roll | assets/2023-5-23-figure_generator.py:64-65 | `np.roll` keeps the length and is a permutation: the result holds the same elements as the input, each as often. |
| Numeric.RollLeftPrefix | assets/2023-5-23-figure_generator.py:17 | Rolling left by n moves row k + n to row k: the surviving rows are `s[n..]`. |
| Numeric.RollSum | assets/2023-5-23-figure_generator.py:47 | A circular shift leaves a row's sum unchanged. |
| Numeric.ModSucc | assets/2023-5-23-figure_generator.py:46 | `(i % n + 1) % n == (i + 1) % n`: the round-robin index is the count of frames modulo `n_samples`. |
| Numeric.WriteColumn | assets/2023-5-23-figure_generator.py:45 | `a[:, j] = col` sets column j to col and leaves every other column as it was. |
| Velocity.TimeDerivative | assets/2023-5-23-figure_generator.py:57 | One rate per grid point: the previous value plus its rate times dt gives the new value. |
| Velocity.AngleDerivative | assets/2023-5-23-figure_generator.py:58 | One slope per grid point: dh/dθ at point i is (h[i + 1] − h[i − 1]) / (2Δθ). The first point looks back to the last, and the last looks ahead to the first. |
| Velocity.AngleDerivativeByRolls | assets/2023-5-23-figure_generator.py:58 | That slope is `(np.roll(h, -1) − np.roll(h, 1)) / (2Δθ)` at every point. |
| Velocity.Window | assets/2023-5-23-figure_generator.py:60-65 | The gather for point i has 2w + 1 entries, and entry j is element i of `np.roll(xs, j − w)`, which is what column j of the neighbour buffer holds at row i. |
| Velocity.LeastSquaresVelocity | assets/2023-5-23-figure_generator.py:69 | The estimate v satisfies v·Σa² = −Σab. |
| Velocity.WriteRollColumn | assets/2023-5-23-figure_generator.py:62-65 | Writing `np.roll(xs, j − w)` into column j extends to j + 1 the columns that hold their rolls, and every other column keeps its values. |
| Velocity.NeighborRows | assets/2023-5-23-figure_generator.py:60-65 | Once every column k holds `np.roll(xs, k − w)`, row i of the buffer is xs[(i − s) mod N] for s = −w..w. |
| Velocity.RowVelocities | assets/2023-5-23-figure_generator.py:68-69 | Every row pair of the two neighbour buffers gets its least-squares velocity. |
| Velocity.VelocityCharacterized | assets/2023-5-23-figure_generator.py:69 | A number c is the estimate if and only if c·Σa² = −Σab. |
| Velocity.SingleSampleVelocity | assets/2023-5-23-figure_generator.py:69 | For one sample (a, b) with a non-zero Σa², a is non-zero and the estimate is −b / a. |
| Velocity.NormalEquation | assets/2023-5-23-figure_generator.py:69 | The residual dt + v·dθ of the estimate is orthogonal to dθ over the window. |
| Velocity.LeastSquaresOptimal | assets/2023-5-23-figure_generator.py:69 | No velocity has a smaller sum of squared residuals than the estimate. |
| Velocity.ExactFlowRecovered | assets/2023-5-23-figure_generator.py:69 | If dt = −c·dθ at every sample of the window, the estimate is c. |
| Velocity.NoChangeNoFlow | assets/2023-5-23-figure_generator.py:69 | Where dt is zero throughout the window, the estimate is zero. |
| Velocity.DirectEstimate | assets/2023-5-23-figure_generator.py:62-69 | With `window_size` 0, a non-zero denominator means dh/dθ[i] is non-zero. The estimate is then −dh/dt[i] / dh/dθ[i]. |
| Velocity.UnchangedCurveIsStill | assets/2023-5-23-figure_generator.py:57-69 | If h equals the previous curve, every estimate with a non-zero denominator is 0. |
| Velocity.VelocityEstimator.constructor | assets/2023-5-23-figure_generator.py:50-52 | The previous curve is 360 zeros and the window size is stored. |
| Velocity.VelocityEstimator.Estimate | assets/2023-5-23-figure_generator.py:54-72 | Requires dt ≠ 0 and every denominator non-zero. Then v has 360 entries, and v[i] is the least-squares velocity over the windows of dh/dθ and dh/dt, computed against the previous curve, around i. Afterwards the previous curve is h. |

## Left out

- The smoothing-spline fit and its evaluation at `x` (lines 36-37). The model of `take` ends at the deduplicated columns, so `Take` has no `x` parameter.
- `lam` is stored by the constructor but only the spline fit uses it.
- Interpolation.Interpolator.Take: `np.argsort` is not stable. The model therefore promises the columns of *some* sorting of the buffer, not which distance of a run of equal angles survives. `DedupAnglesDetermined` shows that the angle column does not depend on this choice.
- Interpolation.Interpolator.Take: it requires `memory_size >= 1`. On an empty buffer the source raises IndexError at `angles[0]` (line 28), and that error path is not modelled.
- Interpolation.Interpolator.Update: for `memory_size` ≥ 1 it requires a batch of 1 to `memory_size` rows. With an empty batch or a longer one, the source rolls the buffer and then raises on the tail assignment, and that error path is not modelled. For `memory_size` = 0 a batch of zero rows or one row is a no-op in the source and is modelled as one; a longer batch raises there and is not modelled.
- MovingAverage.MaFilter.Filter: it requires `n_samples > 0` and a frame with one value per channel. With zero slots the source raises. NumPy would also broadcast a scalar frame, or a frame of one value, to every channel, and those cases are not modelled.
- Velocity.VelocityEstimator.Estimate: it requires `dt ≠ 0` and a non-zero Σdθ² in every window. Where these fail, floating point gives infinities or NaN, which exact reals do not have.
- Velocity.VelocityEstimator.Estimate: `h` must have exactly 360 points, the size the source's buffers are written for. A shorter or longer `h` makes NumPy raise or broadcast.
- The `float32` element type of the neighbour buffers (lines 60-61) and all floating-point rounding. Arithmetic is exact over reals. `np.pi` is the exact value of the double nearest π, 884279719003555 / 2^48.
- `self.h_prev = h` stores the caller's array by reference, so later changes by the caller would show through. The model stores the value.
- A negative `window_size`, `memory_size`, `n_channels` or `n_samples` (the model uses `nat`). For the last three the source raises ValueError from `np.zeros` (lines 13 and 41), and that error path is not modelled.
- The driver `generate` (lines 77-109): file loading, the unit conversions and the `linspace` grid.
- Every figure, animation and GIF output (lines 112-283).
- The other four figure scripts, which only evaluate closed-form formulas for plotting.
