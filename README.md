# Seed-point generators of MRtrix tractography

This project models the seeders of `src/dwi/tractography/seeding/basic.cpp`
in Dafny and proves properties of that model. Each seeder produces starting
points for streamline tracking:

- **Sphere**: draws points of the cube [-1,1]³ until one lies in the unit
  ball, then scales it by the radius and moves it to the centre.
- **SeedMask**: draws voxels of a binary mask until one is set.
- **Random_per_voxel** and **Grid_per_voxel**: walk the set voxels of a mask
  once, in raster order, with index(2) fastest.
  - Random_per_voxel emits `num` seeds in each set voxel.
  - Grid_per_voxel emits every cell of an `os`×`os`×`os` sub-grid of each set voxel, pos[2] fastest.
  - Both set `expired` once the cursor runs off the end, and then fail for good.
- **Rejection**: the constructor scans a weighting image.
  - It refuses a negative value and an all-zero image.
  - It records the maximum, the sum of the values and the bounding box of the non-zero voxels; the lower bound is lowered by one voxel.
  - It keeps a cropped copy of the image.
  - `get_seed`, when built without interpolation, draws a voxel of the copy and a selector `u * max` until the voxel's value is not below the selector.

Modules, one file each:

| module | file | contents |
|---|---|---|
| Wrappers | wrappers.dfy | `Option` and `Result` |
| Raster | raster.dfy | the voxel cursor, the raster increment, the walk of all voxels |
| Volumes | volumes.dfy | 3-D images, the mask's set voxels in raster order, the do-while advance loop |
| Enumeration | enumeration.dfy | multiset counting facts about repeated sequences |
| RandomPerVoxel | random_per_voxel.dfy | the seeder class with `GetSeed`, draining and run-to-exhaustion |
| GridPerVoxel | grid_per_voxel.dfy | the same for the sub-grid seeder, with `pos` as a 3-element array |
| Sphere | sphere.dfy | the ball rejection loop |
| SeedMask | seed_mask.dfy | the mask rejection loop |
| Rejection | rejection.dfy | the constructor's scan, the crop, the sampler and its `get_seed` |

Choices that shape the model:

- **Per-voxel seeders as pending queues.** Each per-voxel seeder is a class with the fields the source updates: cursor, `inc` or `pos`, `expired`.
  - Its state is tied to a ghost sequence `Pending()`, the seeds every later call will emit.
  - `GetSeed` pops the head of that sequence, or fails exactly when it is empty.
  - Lemmas then count the queue of a fresh seeder: each set voxel occurs `num` times, and each (voxel, cell) pair once.
- **Random draws are input sequences.** The retry loops return the first accepted draw and the number of draws used, or `None` when the sequence runs out. Every earlier draw is proved rejected.
- **The Rejection scan is specified against folds.** Its three nested loops (axis 0 fastest, as `Loop (0,3)` visits voxels) are specified against the fold functions `RowFold`, `SliceFold` and `SlabFold` of one visit step.
  - Lemmas prove what the fold computes: the maximum, the sum and the extreme non-zero indices per axis.
  - Every image extent is at most `SizeMax`, the largest `size_t`, the initial value of bottom. So every index is below that initial bottom, and the first non-zero voxel lowers bottom on every axis.
- **Exact arithmetic.** Intensities and coordinates are exact reals, and indices are unbounded integers.

The initial state of the per-voxel seeders is set in `basic.h`, which is not
part of this model. The model assumes the state that the code implies:
- the cursor starts at (0, 0, −1), just before the first voxel, since line 80 tests `index(2) < 0`;
- `inc` starts at 0;
- the grid's `pos` starts at (os−1, os−1, os−1), so the first call wraps and advances;
- the Rejection volume starts at 0.

## Model

| member | source | states |
|---|---|---|
| Raster.Step | src/dwi/tractography/seeding/basic.cpp:84-90 | the increment wraps index(2), carrying into index(1) and then index(0); the result rests on a voxel or just past the end, and is strictly later in raster order |
| Raster.StepCounts | src/dwi/tractography/seeding/basic.cpp:84-90 | one increment adds exactly one to the linear index i·size(1)·size(2) + j·size(2) + k |
| Raster.StepIsSuccessor | src/dwi/tractography/seeding/basic.cpp:84-90 | no voxel lies strictly between a cursor and its increment |
| Raster.SpanHas | src/dwi/tractography/seeding/basic.cpp:83-91 | the walk from a cursor visits exactly the in-range voxels not before it |
| Raster.SpanDistinct | src/dwi/tractography/seeding/basic.cpp:83-91 | the walk visits no voxel twice |
| Raster.SpanLength | src/dwi/tractography/seeding/basic.cpp:83-91 | the walk from v has size(0)·size(1)·size(2) − Lin(v) voxels |
| Volumes.NonZeroFromHas | src/dwi/tractography/seeding/basic.cpp:91 | the set voxels from a cursor on are exactly the in-range set voxels not before it, without repetition |
| Volumes.NonZeroEnumeration | src/dwi/tractography/seeding/basic.cpp:83-91 | the raster enumeration of the whole mask holds every set voxel of the mask exactly once and nothing else |
| Volumes.Advance | src/dwi/tractography/seeding/basic.cpp:83-91 | the do-while advance moves strictly forward; it stops past the end exactly when no set voxel follows, otherwise on the next set voxel; every voxel skipped is unset |
| RandomPerVoxel.Seeder.constructor | src/dwi/tractography/seeding/basic.cpp:80 | the initial state is valid, and its pending seeds are `num` copies of each set voxel in raster order |
| RandomPerVoxel.Seeder.GetSeed | src/dwi/tractography/seeding/basic.cpp:72-103 | a call succeeds exactly when a seed is pending and emits the first pending seed, a set voxel; it fails only when it sets `expired` with nothing pending; once expired, it fails and changes nothing |
| RandomPerVoxel.QueueStay | src/dwi/tractography/seeding/basic.cpp:80 | while `++inc` stays below `num`, the next seed is the current voxel again |
| RandomPerVoxel.QueueMove | src/dwi/tractography/seeding/basic.cpp:80-91 | when `inc` wraps (or on the first call), the next seed is the next set voxel, with `inc` reset to 0 |
| RandomPerVoxel.QueueDone | src/dwi/tractography/seeding/basic.cpp:93-96 | when no set voxel follows, nothing is pending |
| RandomPerVoxel.Drain | src/dwi/tractography/seeding/basic.cpp:72-103 | calling `get_seed` until it fails yields exactly the pending seeds and leaves the seeder expired |
| RandomPerVoxel.RunToExhaustion | src/dwi/tractography/seeding/basic.cpp:72-103 | a fresh seeder on a mask with N set voxels succeeds exactly N·num times, `num` times in each set voxel and never elsewhere, and the next call fails |
| RandomPerVoxel.YieldPerVoxel | src/dwi/tractography/seeding/basic.cpp:80-97 | the queue of a fresh seeder holds each set voxel `num` times and has N·num entries |
| GridPerVoxel.Seeder.constructor | src/dwi/tractography/seeding/basic.cpp:120-135 | the initial state is valid, and its pending seeds are every sub-grid cell of each set voxel |
| GridPerVoxel.Seeder.GetSeed | src/dwi/tractography/seeding/basic.cpp:112-147 | a call succeeds exactly when a seed is pending and emits the first pending (voxel, cell), a set voxel and a cell in [0,os)³; it fails only when it sets `expired` with nothing pending; once expired, it fails and changes nothing |
| GridPerVoxel.QueueStay | src/dwi/tractography/seeding/basic.cpp:120-123 | before the last cell, the next seed is the next cell of the same voxel, pos[2] fastest |
| GridPerVoxel.QueueMove | src/dwi/tractography/seeding/basic.cpp:124-135 | after the last cell, the next seed is cell 0 of the next set voxel |
| GridPerVoxel.QueueDone | src/dwi/tractography/seeding/basic.cpp:136-139 | after the last cell, with no set voxel left, nothing is pending |
| GridPerVoxel.Drain | src/dwi/tractography/seeding/basic.cpp:112-147 | calling `get_seed` until it fails yields exactly the pending seeds and leaves the seeder expired |
| GridPerVoxel.RunToExhaustion | src/dwi/tractography/seeding/basic.cpp:112-147 | a fresh seeder on a mask with N set voxels emits N·os³ seeds, each (set voxel, cell) pair exactly once and nothing else, and the next call fails |
| GridPerVoxel.PairsOnce | src/dwi/tractography/seeding/basic.cpp:120-126 | within one voxel each cell of [0,os)³ is emitted once |
| GridPerVoxel.GridLength | src/dwi/tractography/seeding/basic.cpp:120-126 | each voxel contributes os³ seeds |
| GridPerVoxel.GridCount | src/dwi/tractography/seeding/basic.cpp:120-139 | each cell of each voxel occurs as often as the voxel occurs in the enumeration |
| GridPerVoxel.GridYield | src/dwi/tractography/seeding/basic.cpp:120-139 | the queue of a fresh seeder holds each (set voxel, cell) pair once and has N·os³ entries |
| Sphere.Candidate | src/dwi/tractography/seeding/basic.cpp:43 | the candidate 2u − 1 of a draw lies in the cube [-1,1]³ when each u is in [0,1] |
| Sphere.Accepts | src/dwi/tractography/seeding/basic.cpp:44 | the loop stops only on a candidate with squared norm at most 1, and such a candidate lies in the cube [-1,1]³ |
| Sphere.BallInCube | src/dwi/tractography/seeding/basic.cpp:43-44 | a point of squared norm at most 1 has every coordinate in [-1,1] |
| Sphere.ScaledInBall | src/dwi/tractography/seeding/basic.cpp:45 | a point of the unit ball scaled by r lies within distance r of the origin |
| Sphere.GetSeed | src/dwi/tractography/seeding/basic.cpp:39-47 | the loop exits only on a draw with squared norm at most 1, which is the first such draw, and returns it scaled and moved to the centre, within distance `rad` of it; it fails only when every draw is rejected |
| SeedMask.GetSeed | src/dwi/tractography/seeding/basic.cpp:53-60 | the loop exits only on the first draw that hits a set voxel, in range on every axis; it fails only when every draw hits an unset voxel |
| SeedMask.AcceptedAreEnumerated | src/dwi/tractography/seeding/basic.cpp:60 | a voxel is accepted exactly when the per-voxel seeders enumerate it |
| Rejection.TallyRow | src/dwi/tractography/seeding/basic.cpp:162-176 | along axis 0 of one row, the loop either finds a negative value or yields the fold of the visit step over the row, all values non-negative |
| Rejection.TallySlice | src/dwi/tractography/seeding/basic.cpp:162-176 | over the rows of one slice, the same |
| Rejection.Tally | src/dwi/tractography/seeding/basic.cpp:162-176 | over the whole image, the loop either finds a negative value or yields the fold of the visit step, with no value negative |
| Rejection.Visit | src/dwi/tractography/seeding/basic.cpp:164-175 | one pass of the loop body over a non-negative value (it has no contract of its own; Rejection.VisitEffect states what it does) |
| Rejection.VisitEffect | src/dwi/tractography/seeding/basic.cpp:164-175 | a zero voxel changes nothing; a non-zero one adds its value to the sum, makes max the larger of max and the value (`std::max`), and brings the voxel between bottom and top; either way max never drops, bottom never rises and top never falls |
| Rejection.RowFold | src/dwi/tractography/seeding/basic.cpp:162 | the loop over axis 0 of one row as a fold of Rejection.Visit (no contract of its own; Rejection.RowFoldSum, Rejection.RowFoldWidens and Rejection.RowTallies state what it computes) |
| Rejection.SliceFold | src/dwi/tractography/seeding/basic.cpp:162 | the loop over the rows of one slice as a fold of Rejection.RowFold (no contract of its own; Rejection.SliceFoldSum, Rejection.SliceFoldWidens and Rejection.SliceTallies state what it computes) |
| Rejection.SlabFold | src/dwi/tractography/seeding/basic.cpp:162 | the whole `Loop (0,3)` as a fold over slices, axis 0 fastest (no contract of its own; Rejection.SlabFoldSum, Rejection.SlabFoldWidens and Rejection.SlabTallies state what it computes) |
| Rejection.RowFoldWidens | src/dwi/tractography/seeding/basic.cpp:162-175 | the fold over a row never lowers max, never raises bottom and never lowers top |
| Rejection.SliceFoldWidens | src/dwi/tractography/seeding/basic.cpp:162-175 | the fold over a slice does the same |
| Rejection.SlabFoldWidens | src/dwi/tractography/seeding/basic.cpp:162-175 | the whole fold only widens the initial bounds |
| Rejection.StartTallies | src/dwi/tractography/seeding/basic.cpp:156-160 | the initial max 0, bottom `size_t` max and top 0 describe the empty prefix |
| Rejection.MaxVisit | src/dwi/tractography/seeding/basic.cpp:167 | `std::max` keeps max the largest value seen, and attained once it is non-zero |
| Rejection.AxisVisit | src/dwi/tractography/seeding/basic.cpp:169-174 | a non-zero voxel widens bottom and top of an axis to the least and largest index of the non-zero voxels seen |
| Rejection.AxisSkip | src/dwi/tractography/seeding/basic.cpp:164 | a zero voxel leaves the bounds of an axis correct |
| Rejection.VisitTallies | src/dwi/tractography/seeding/basic.cpp:163-175 | one visit step keeps max, bottom and top correct for one more voxel |
| Rejection.AxisMove | src/dwi/tractography/seeding/basic.cpp:162 | the bounds of an axis are correct at any cursor before which the same voxels are seen |
| Rejection.SeenNext | src/dwi/tractography/seeding/basic.cpp:165-166 | a voxel that does not throw extends the prefix of non-negative values by one voxel |
| Rejection.TalliesMove | src/dwi/tractography/seeding/basic.cpp:162 | moving the cursor to the start of the next row or slice keeps what is known |
| Rejection.RowTallies | src/dwi/tractography/seeding/basic.cpp:162-176 | the fold over a row keeps max, bottom and top correct for the voxels seen |
| Rejection.SliceTallies | src/dwi/tractography/seeding/basic.cpp:162-176 | the fold over a slice keeps them correct |
| Rejection.SlabTallies | src/dwi/tractography/seeding/basic.cpp:162-176 | the fold over the first k slices keeps them correct |
| Rejection.SlabStep | src/dwi/tractography/seeding/basic.cpp:162-176 | folding one more slice keeps them correct |
| Rejection.RowFoldSum | src/dwi/tractography/seeding/basic.cpp:168 | the fold over a row adds exactly the row's values to the sum |
| Rejection.SliceFoldSum | src/dwi/tractography/seeding/basic.cpp:168 | the fold over a slice adds exactly the slice's values |
| Rejection.SlabFoldSum | src/dwi/tractography/seeding/basic.cpp:168 | the whole fold's sum is the sum of every value |
| Rejection.NegativeNotEmpty | src/dwi/tractography/seeding/basic.cpp:164-166 | an image with a negative value is not all zero, so the two exceptions exclude each other |
| Rejection.AllSeen | src/dwi/tractography/seeding/basic.cpp:178-179 | after the scan, max is 0 exactly when every value is zero, and no value exceeds max |
| Rejection.AxisConclude | src/dwi/tractography/seeding/basic.cpp:181-183 | after the scan, top is the largest non-zero index of the axis and bottom the smallest, lowered by one unless it is 0 |
| Rejection.Conclude | src/dwi/tractography/seeding/basic.cpp:178-183 | with a non-zero max, the padded bounds summarize the image |
| Rejection.ScanDone | src/dwi/tractography/seeding/basic.cpp:162-183 | a scan that finds no negative value has max 0 exactly when the image is all zero, and otherwise summarizes it |
| Rejection.Scan | src/dwi/tractography/seeding/basic.cpp:158-183 | the constructor throws the negative-value exception exactly when some value is negative, and the empty-image exception exactly when none is negative and all are zero; otherwise max is the largest value and is positive, the sum is the sum of all values, and per axis top is the largest non-zero index and bottom the smallest, lowered by one unless it is 0 |
| Rejection.Pad | src/dwi/tractography/seeding/basic.cpp:181-183 | bottom is lowered by one exactly on the axes where it is not 0 and never goes below 0; max, sum and top are unchanged |
| Rejection.Crop | src/dwi/tractography/seeding/basic.cpp:185-192 | the copy of a sub-block holds, at each voxel c, the value of voxel from + c of the image |
| Rejection.CropAsWritten | src/dwi/tractography/seeding/basic.cpp:185 | the block as written, with `bottom` as first voxel and `top` as size, holds a voxel only when top is positive on every axis, and then holds bottom |
| Rejection.AxisSize | src/dwi/tractography/seeding/basic.cpp:185 | the corrected size along one axis: for 0 ≤ bottom ≤ top < n, the block from bottom stays inside the axis, reaches past top, and ends either one voxel past top or at the image edge |
| Rejection.CropExtent | src/dwi/tractography/seeding/basic.cpp:185 | the corrected block starts at bottom; when bottom..top lies in the image, the block fits in the image and holds every voxel of the box bottom..top |
| Rejection.CropAsWrittenMisses | src/dwi/tractography/seeding/basic.cpp:185 | with `top` passed as the block's size, whenever bottom is 0 along axis 0, some non-zero voxel falls outside the block |
| Rejection.OneVoxelCrop | src/dwi/tractography/seeding/basic.cpp:178-185 | for the image of one voxel of value 1, the block as written has size 0 on every axis, while the corrected block is the whole image |
| Rejection.AxisCrop | src/dwi/tractography/seeding/basic.cpp:181-185 | along each axis the corrected block lies in the image and covers every non-zero index |
| Rejection.CropCovers | src/dwi/tractography/seeding/basic.cpp:181-185 | the corrected block fits in the image, holds every non-zero voxel, and reaches at most one voxel past top |
| Rejection.Make | src/dwi/tractography/seeding/basic.cpp:185-196 | with the corrected crop: the sampler's origin is bottom and its max the scan's; its copy is a valid image that fits in the original, and its voxel c holds the value of original voxel origin + c |
| Rejection.MakeRepresents | src/dwi/tractography/seeding/basic.cpp:185-196 | with the corrected crop, the sampler built from the scan's bounds holds the copy of the block, its origin, max and the volume scaled by the copy's voxel count |
| Rejection.Build | src/dwi/tractography/seeding/basic.cpp:151-199 | the constructor fails exactly as the scan does; otherwise its sampler keeps a copy of the image around every non-zero voxel, the maximum value, and the sum of all values times the copy's voxel count |
| Rejection.CopyHoldsMax | src/dwi/tractography/seeding/basic.cpp:185-196 | with the corrected crop, the copy holds the maximum value and nothing larger |
| Rejection.Accepts | src/dwi/tractography/seeding/basic.cpp:228 | with max > 0, a draw is accepted exactly when u ≤ value / max, where value is the value of the drawn voxel of the copy |
| Rejection.GetSeed | src/dwi/tractography/seeding/basic.cpp:221-228 | the loop exits only on the first draw whose voxel value is not below `u * max`, and returns that voxel's index in the original image; it fails only when every draw is rejected |
| Rejection.AcceptedSeed | src/dwi/tractography/seeding/basic.cpp:223-228 | with the corrected crop, an accepted draw names an in-range voxel of the original image whose value is at least the selector, which is non-zero when u > 0 |
| Rejection.AcceptanceBounds | src/dwi/tractography/seeding/basic.cpp:227-228 | for u in [0,1], a voxel holding max is always accepted, and a zero voxel only when u is 0 |

## Left out

- The mutex and the unlocked read of `expired` are concurrency. Each `get_seed` is modelled as one atomic step.
- The random-number distributions and the uniformity claims are left out. Draws are inputs, and the expected number of draws is not modelled.
- The jitter `index + uniform − 0.5` is left out, as are `offset + pos*step` and the `voxel2scanner` transforms. These are float arithmetic of an external transform library. A per-voxel seed is its voxel (and, for the grid, its cell); a Rejection seed is its voxel index in the original image.
- The `REJECTION_SAMPLING_USE_INTERPOLATION` branch uses linear interpolation from a library that is not part of this model.
- Opening the image, the scratch buffer, the header and `copy` are image I/O. The crop is modelled as a copy of a sub-block.
- `src/dwi/tractography/algorithms/fact.h` and `lib/image_io/base.h` are not part of this model. They are the tracking algorithm and the image storage backend, not the seeders.
- `basic.h`, where the initial seeder state is set, is not part of this model. The initial state is assumed as stated above.
- The constructors require `num >= 1` and `os >= 1`. The behaviour for 0 is not modelled.
- Floats are exact reals, so rounding in `u * max` and in the sum is not modelled.
- Images with more than three axes are left out. The scan and the crop use the first three axes only.
- Rejection.Scan: requires every image extent to be at most `SizeMax` (`size_t` indices); the wrap-around of `size_t` beyond that is not modelled.
- Rejection.Build: models the corrected crop described under Findings, not the crop as written at line 185. The same holds for Rejection.Make, Rejection.MakeRepresents, Rejection.CopyHoldsMax, Rejection.GetSeed, Rejection.AcceptedSeed and Rejection.AcceptanceBounds, which work on the sampler that Rejection.Build returns.

## Findings

| source | as written | input that shows it | evidently intended | confidence | as-written member | corrected member |
|---|---|---|---|---|---|---|
| src/dwi/tractography/seeding/basic.cpp:185 | `bottom` and `top` are passed to the subset adapter, whose arguments are the first voxel and the size of the block. `top` is the largest non-zero index, not a size. | an image of one voxel of value 1: the scan gives bottom (0,0,0) and top (0,0,0), so the block has size 0 on every axis; more generally, when bottom is 0 the voxel at index top lies outside the block | a block from bottom to one voxel past top, clipped to the image: size min(n − bottom, top + 2 − bottom) on each axis | medium; not executed; the (from, size) meaning of the adapter's arguments comes from `adapter/subset.h`, which is not part of this model | Rejection.CropAsWrittenMisses | Rejection.CropCovers |
