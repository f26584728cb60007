# skelerator volume synthesis — Dafny model

skelerator builds synthetic 3-D instance segmentations. `create_segmentation`
takes a requested `shape`, an object count and a number of points per
skeleton. It then does the following, in order:

1. It checks that the shape has three entries, all even.
2. It allocates a zero-filled working volume of twice the shape on every axis.
3. For each object `i` it samples `8 * points_per_skeleton` random points in
   that working domain, builds a tree and a linear skeleton over them, and
   draws the skeleton into the working volume with label `i + 1`. A later
   object overwrites the voxels of an earlier one.
4. It cuts the centre of the working volume back to `shape`.
5. It zeroes every seed that differs from the size-4 maximum filter of the
   volume (non-maximum suppression).
6. It floods the surviving seeds over a distance-transform-plus-noise surface
   and returns `{"segmentation", "skeletons", "raw"}`. The `raw` key holds
   the boundary mask.

This project models steps 1 to 5 on integers. The slice bounds are computed
exactly, which matches the source's floating-point halving for every extent
that can be allocated (see "## Left out"). Step 6 is modelled only as the
bundle built around the suppressed seeds. The random points are inputs. The
tree/skeleton construction, the flood and the boundary detection are function
parameters.

- `volumes.dfy`, module `Volumes`: extents, voxels, volumes as nested
  sequences, and `View`. `View` reads a box of an `array3` as a value, the
  way a numpy slice is a view.
- `placement.dfy`, module `Placement`: the seed accumulation. It allocates an
  `array3<int>` filled with zeros and calls `Draw` once per object.
  `LastLabel` specifies the voxel that results: 0 if no object drew it,
  otherwise the label of the last object that drew it.
- `border.dfy`, module `Border`: the slice bounds `int(s/2) : int(3*s/2)` and
  the crop as a pure function.
- `suppression.dfy`, module `Suppression`: the size-4 maximum filter and the
  masked zeroing.
  - The filter window of index `i` is `i-2 .. i+1`, because an even size is
    centred at `size // 2`. It is clipped to the axis.
  - `ReflectedMax` is the filter read literally: 64 taps in scipy's default
    `reflect` mode. `ReflectedMaxIsWindowMax` proves that it equals the
    maximum over the clipped window (`WindowMax`), which the rest of the model
    uses.
  - `Suppress` works in place on the centre box of the working array, because
    the cropped seeds are a numpy view of it. It first writes the whole filter
    output to separate storage (`MaxFilter`) and only then zeroes voxels
    (`ZeroPlane`).
- `forest.dfy`, module `Forest`: shape validation, the error cases, the
  composed specification `SeedVolume`, and `CreateSegmentation`.

Four behaviours of the code are worth noting:

- The `interpolation` argument has no effect, because the skeleton is always
  built with `"linear"`.
- Besides the two shape errors, the model has two more failures, both raised
  by numpy:
  - A negative even extent is rejected when the noise is drawn.
  - A zero extent is rejected when at least one object is requested with at
    least one point. The points would have to come from the empty range
    `[0, 0)`.
- With `points_per_skeleton = 0`, a zero extent is not an error. numpy returns
  an empty sample without checking the range, so each object gets an empty
  point cloud.
- A negative `n_objects` draws no object, as `range` does.

## Model

| member | source | states |
|---|---|---|
| `Forest.ValidateShape` | skelerator/forest.py:31-36 | A shape is accepted exactly when it has three entries and each of them is even. A shape whose length is not 3 fails with the "3D" error and no other. Any other rejection is the odd-dimension error. An accepted shape is returned as an even `Shape`. |
| `Forest.AcceptedShapeCropsToCentre` | skelerator/forest.py:35-36 | For every accepted non-negative shape, each axis's slice keeps exactly `shape[d]` indices and cuts as many before them as after them. |
| `Forest.OddExtentCropsOffCentre` | skelerator/forest.py:35-36 | With an odd extent the slice would cut one index more at the far end than at the near end. This is what the evenness check rules out. |
| `Forest.SamplingFails` | skelerator/forest.py:49 | Point sampling raises exactly when an object is requested with at least one point and some axis of the working volume is empty. |
| `Forest.Count` | skelerator/forest.py:43 | The number of iterations of `range(n_objects)`: `n_objects` when it is non-negative, otherwise 0. |
| `Forest.CreateSegmentation` | skelerator/forest.py:31-80 | An invalid shape returns the validation error; no sampled points are required for it. A negative extent returns NegativeDimension. When sampling fails (`SamplingFails`) the result is EmptySampleRange. A zero extent with no points to sample is not an error. Otherwise the bundle's `skeletons` is `SeedVolume` of the drawn strokes, `segmentation` is the flood of it and `raw` is the boundary mask of the segmentation. None of this depends on `interpolation`. |
| `Forest.SeedVolume` | skelerator/forest.py:58-67 | The skeletons volume (suppressed centre crop of the accumulated seeds) has exactly the requested extent. |
| `Forest.CropReadsCentreLabels` | skelerator/forest.py:58 | Cropped voxel `(i,j,k)` holds the accumulated label of working voxel `(s0/2+i, s1/2+j, s2/2+k)`. |
| `Forest.SeedLabelsAreObjectLabels` | skelerator/forest.py:42-67 | Every skeletons voxel lies in `0..n_objects`. A non-zero voxel `k` is the accumulated label of the matching working voxel (`CentreVoxel`). Object `k-1`'s skeleton drew that voxel and no later object did (`LabelNamesLastWriter`). |
| `Forest.SeedIsCentreLabelOrZero` | skelerator/forest.py:58-67 | A skeletons voxel is either the accumulated label of the matching working voxel or 0. |
| `Forest.CroppedLabelsAreNonNegative` | skelerator/forest.py:42-58 | No voxel of the cropped seeds is negative. |
| `Forest.SeedVolumeIsSuppressionFixpoint` | skelerator/forest.py:67 | Suppressing the returned skeletons volume a second time leaves it unchanged. |
| `Placement.Draw` | skelerator/forest.py:52 | Every voxel the skeleton covers holds the given label afterwards. Every other voxel is unchanged. |
| `Placement.PlaceSeeds` | skelerator/forest.py:42-52 | It needs `8*points_per_skeleton` points per cloud, each inside `[0, 2*shape[d])`. The result is a fresh volume of extent `2*shape` on every axis. Each voxel holds `LastLabel` of the strokes, in drawing order. That is the labelling `1, 2, …, n` with last write winning, and 0 where nothing was drawn. |
| `Placement.LastLabel` | skelerator/forest.py:43-52 | A voxel's value after the drawing loop, starting from 0: the label `k` of the last stroke `k-1` that covers it, or 0. Its meaning is stated by `LastLabelIsLastWriter`. |
| `Placement.Accumulated` | skelerator/forest.py:42-52 | The working volume after the loop, as a value. It has extent `working`, and each voxel holds `LastLabel` of the strokes. |
| `Placement.LastLabelIsLastWriter` | skelerator/forest.py:42-52 | A voxel's label lies in `0..n`. It is 0 exactly when no object drew the voxel. Otherwise it is `k`, where object `k-1` drew the voxel and no later object did (last write wins). |
| `Placement.LastWriterDeterminesLabel` | skelerator/forest.py:43-52 | If object `k-1` drew a voxel and no later object did, the voxel's label is `k`. |
| `Border.SliceStart` | skelerator/forest.py:58 | `int(s/2)`: the result `r` satisfies `2r <= s < 2r+2`, i.e. `s/2` rounded down. |
| `Border.SliceStop` | skelerator/forest.py:58 | `int(3*s/2)`: the result `r` satisfies `2r <= 3s < 2r+2`, i.e. `3s/2` rounded down. |
| `Border.SliceKeepsCentre` | skelerator/forest.py:58 | For `s >= 0`, `int(s/2) : int(3s/2)` lies within `0..2s` and keeps `s` indices. It is centred exactly when `s` is even. |
| `Border.Crop` | skelerator/forest.py:58 | The crop has extent `shape`, and voxel `(i,j,k)` is voxel `(s0/2+i, s1/2+j, s2/2+k)` of the working volume. |
| `Border.CropIsCentred` | skelerator/forest.py:58 | For an even shape the crop origin is `shape/2`, with equal margins on both sides of every axis. |
| `Border.CropIsCentreView` | skelerator/forest.py:58 | Cropping the working array's contents gives the same volume as reading the array's centre box (the numpy view). |
| `Suppression.Reflect` | skelerator/forest.py:67 | scipy's `reflect` mode maps filter position `t` to an index in `0..n-1`. |
| `Suppression.ReflectMirrorsAtEnds` | skelerator/forest.py:67 | Within one extent of the axis, `reflect` mirrors about both ends. Position `-1-t` reads `t`, and position `n+t` reads `n-1-t`. |
| `Suppression.ReflectedWindowIsClippedBox` | skelerator/forest.py:67 | Under `reflect`, window positions `i-2 .. i+1` read only indices in the clipped box `[max(0,i-2), min(n-1,i+1)]`. Every index of that box is read, from its own position. |
| `Suppression.MaxRowIsMaximum` | skelerator/forest.py:67 | The row maximum bounds the range and is attained in it. |
| `Suppression.MaxPlaneIsMaximum` | skelerator/forest.py:67 | The rectangle maximum bounds the rectangle and is attained in it. |
| `Suppression.MaxBoxIsMaximum` | skelerator/forest.py:67 | The box maximum bounds the box and is attained in it. |
| `Suppression.WindowMax` | skelerator/forest.py:67 | `maximum_filter(seeds, size=4)` at one voxel: the maximum over the window `i-2..i+1` on each axis, clipped to the volume. Its meaning is stated by `WindowMaxIsWindowMaximum` and `ReflectedMaxIsWindowMax`. |
| `Suppression.Taps` | skelerator/forest.py:67 | The `4 x 4 x 4` values the filter combines at a voxel in `reflect` mode. Tap `(d0,d1,d2)` reads position `(i-2+d0, j-2+d1, k-2+d2)` mirrored into the volume. |
| `Suppression.ReflectedMax` | skelerator/forest.py:67 | `maximum_filter(seeds, size=4)` at one voxel, read literally: the largest reflected tap. |
| `Suppression.TapIsWindowVoxel` | skelerator/forest.py:67 | Every reflected tap reads a voxel of the clipped window. |
| `Suppression.WindowVoxelIsTap` | skelerator/forest.py:67 | Every voxel of the clipped window is read by the tap at its own offset, without reflection. |
| `Suppression.ReflectedMaxIsWindowMax` | skelerator/forest.py:67 | The literal reflected filter equals the clipped-window maximum at every voxel. |
| `Suppression.WindowMaxIsWindowMaximum` | skelerator/forest.py:67 | The filter output at a voxel is at least the voxel's own value. It bounds every value of the window and equals one of them. |
| `Suppression.Suppressed` | skelerator/forest.py:67 | Suppression preserves the volume's extent. |
| `Suppression.SuppressionKeepsOrZeroes` | skelerator/forest.py:67 | Each voxel keeps its value or becomes 0, so no new label appears. A non-negative voxel never increases. |
| `Suppression.SuppressionKeepsPeaksOnly` | skelerator/forest.py:67 | A voxel keeps its value exactly when no voxel of its window holds a larger value. Otherwise it becomes 0. |
| `Suppression.GlobalMaximumSurvives` | skelerator/forest.py:67 | A voxel holding the largest value of the whole volume survives. |
| `Suppression.ZeroStaysZero` | skelerator/forest.py:67 | A background voxel stays 0. |
| `Suppression.SuppressionIsIdempotent` | skelerator/forest.py:67 | On non-negative labels, suppressing twice equals suppressing once. |
| `Suppression.MaxFilter` | skelerator/forest.py:67 | It returns fresh storage whose every voxel is the window maximum of the original volume. |
| `Suppression.FilterPlane` | skelerator/forest.py:67 | Plane `i` of the filter output gets the window maxima. The other planes are unchanged. |
| `Suppression.Masked` | skelerator/forest.py:67 | One voxel of `seeds[maximum_filter(seeds) != seeds] = 0`: 0 where the filter output differs from the original value, the original value elsewhere. |
| `Suppression.ZeroPlane` | skelerator/forest.py:67 | On plane `i` of the box, each voxel that differs from the filter output is zeroed and the others are kept. Everything outside that plane is unchanged. |
| `Suppression.ZeroBox` | skelerator/forest.py:67 | Each voxel of the box that differs from the filter output is zeroed and the others are kept. Every voxel outside the box is unchanged. |
| `Suppression.MaskIsSuppression` | skelerator/forest.py:67 | When the box holds the masked values and the filter output is complete, the box reads exactly `Suppressed` of the original contents. |
| `Suppression.Suppress` | skelerator/forest.py:67 | Afterwards the box holds `Suppressed` of its original contents, and every voxel outside the box is unchanged. |

## Left out

- Noise generation and Gaussian smoothing (skelerator/forest.py:38-39) use random floating-point numbers and a scipy filter. The model keeps only their rejection of a negative extent. `smoothness` is therefore not a parameter.
- The distance transform, the `5.*smoothed_noise` cost, the watershed and the boundary detection (skelerator/forest.py:68-70) are floating-point work in foreign libraries. They are the parameters `flood` and `findBoundaries`, and the noise is taken as fixed inside `flood`.
- The `Tree` and `Skeleton` classes (skelerator/forest.py:50-52) are not part of this model. The voxels a skeleton covers are the parameter `skeletonOf`. These voxels are assumed to lie inside the working volume, as a linear path between points of that box does.
- The random number source is not modelled. The sampled points are the input `clouds`, constrained by a precondition.
- The HDF5 output (skelerator/forest.py:72-78), the discarded `pickle.dumps` (skelerator/forest.py:81), the unused imports and the `__main__` demo (skelerator/forest.py:85-92) are I/O and scaffolding. `write_to` is therefore not a parameter.
- `Forest.CreateSegmentation`: `points_per_skeleton` is a natural number. A negative value is not modelled; numpy would reject it when the first object is sampled.
- `Forest.CreateSegmentation`: the slice bounds are computed with floating-point division in the source. The model uses exact integer division. For an even extent `s` the two agree whenever `3*s <= 2^54`, and that covers every extent that can be allocated. They first differ at `s = 6004799503160662`.
- `Forest.CreateSegmentation`: the behaviour for a zero extent follows numpy's current `randint`, which returns an empty sample before checking the range. Older numpy releases raise for an empty range even when no point is requested.
- `Forest.CreateSegmentation`: when no points are sampled (`points_per_skeleton = 0`), what `Tree` does with an empty point set is not part of this model. `skeletonOf` is assumed to give a skeleton inside the working volume, as for any other cloud.
- `Forest.CreateSegmentation`: labels are unbounded integers, while numpy stores them as 64-bit integers. They never exceed `n_objects`, so no wrap-around can occur.
- `Placement.Draw`: the origin offset that `draw` receives is always `[0,0,0]`, so it is not a parameter.
- `Suppression.Suppress`: idempotence (`SuppressionIsIdempotent`) holds only for non-negative values. Seeds are always non-negative.
