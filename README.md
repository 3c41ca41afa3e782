# Radar locator and dataset writer, in Dafny

This project models the per-sensor **locator** of the radar-to-MMDetection3D
dataset builder. It also models the pure rules the driver follows when it
writes the dataset.

The locator receives each frame's lidar points and does three things:

1. It projects the points into the camera image and keeps a depth raster per
   frame. It also keeps a background raster that holds the per-pixel running
   maximum of every depth seen. It queues the last three frame rasters.
2. It thresholds the queued rasters against the background, which gives a
   difference raster. It clusters the non-zero pixels of that raster.
3. For every detection box it takes the largest cluster inside the box. It
   folds that cluster's unprojected points into a centroid and per-axis
   extents.

The driver contributes three rules:
- the output directory layout;
- the search for an output directory name that does not exist yet;
- the per-frame merge of located detections into one label line per robot
  label.

Files and modules:

- `common.dfy` (`Common`): Option and Result, plus real helpers. It has floor
  and ceiling, rounding half away from zero, and the saturating `as i32` and
  `as u32` casts.
- `geometry.dfy` (`Geometry`):
  - 3x3 and 4x4 matrices and nalgebra's cofactor-based `try_inverse`;
  - `Transform` and `MatrixWithInverse` construction;
  - `lidar_to_camera`, `camera_to_lidar` and `lidar_to_world`;
  - the exact-arithmetic round trip.
- `depth_map.dfy` (`DepthMap`): value-level specifications, pixel by pixel, of:
  - the frame raster, where the last writer wins;
  - the background maximum;
  - the three-raster queue;
  - the difference raster.
- `cluster.dfy` (`Cluster`): the row-major list of foreground pixels, and the
  pixel-to-label map zipped from the clustering's labels.
- `search.dfy` (`Search`):
  - the clipped scan window of a box and the order in which it is scanned;
  - the label buckets and the choice of a largest bucket;
  - the statistics fold and what one box's search may return.
- `locator.dfy` (`Locate`): the `Locator` class. Its fields are:
  - the validated geometry;
  - the background as an `array2<real>` that is updated in place;
  - the frame queue as a `seq` of rasters.

  Each method of the class is proved against the value-level specifications
  above.
- `output.dfy` (`Output`):
  - the directory layout and its creation;
  - `set_output_dir_name` over an existence oracle;
  - the `results_map` merge;
  - the label-line fields.

Modelling conventions:

- `f32` values are reals, and "normal" is read as "non-zero".
- A raster pixel `(x, y)` is `r[x][y]`.
- The clustering `dbscan` is a function parameter.
- Where a `HashMap`'s iteration order decides something, the model allows
  every order:
  - a largest bucket is chosen among equals by `max_by_key`, which keeps the
    last maximum it sees;
  - the label lines are written in map order.

## Model

| member | source | states |
|---|---|---|
| Common.Round | src/radar/locate/mod.rs:204-205 | `f32::round`: the nearest integer, with halves rounded away from zero |
| Common.SaturateI32 | src/radar/locate/mod.rs:204-205 | `as i32` clamps to the `i32` range and is the identity inside it |
| Common.SaturateU32 | src/radar/locate/mod.rs:294-297 | `as u32` clamps to `0..=u32::MAX` and is the identity inside it |
| Geometry.TryInverse3 | src/radar/locate/mod.rs:73-75 | a 3x3 matrix has no inverse exactly when its determinant is 0; otherwise the result is a two-sided inverse |
| Geometry.InverseFromAdjugate3 | src/radar/locate/mod.rs:73-75 | the adjugate divided by a non-zero determinant is a two-sided inverse |
| Geometry.TryInverse4 | src/radar/locate/mod.rs:40-42 | a 4x4 matrix has no inverse exactly when its determinant is 0; otherwise the result is the scaled adjugate |
| Geometry.TransformTryFrom | src/radar/locate/mod.rs:39-64 | fails on a singular matrix, then on a singular rotation block, each with the matrix at fault; succeeds exactly when both invert; on success the rotation is the top-left block, the translation is rows 0-2 of column 3, and the inverse translation is its negation |
| Geometry.MatrixWithInverseTryFrom | src/radar/locate/mod.rs:70-82 | fails exactly when the matrix is singular, carrying that matrix; otherwise the stored inverse is a two-sided inverse |
| Geometry.LidarToCamera | src/radar/locate/mod.rs:171-182 | defined exactly when the projected depth is non-zero; the result's depth is that depth and, scaled by it, gives back the projected vector |
| Geometry.CameraFrameAffine | src/radar/locate/mod.rs:172-176 | for a validated transform, the top three rows of `T [p; 1]` are the rotation applied to `p` plus the translation |
| Geometry.IdentityCameraFrame | src/radar/locate/mod.rs:172-176 | the identity transform leaves a lidar point in place |
| Geometry.DetDiagonal3 | src/radar/locate/mod.rs:73-75 | the determinant of a diagonal 3x3 matrix is the product of its diagonal |
| Geometry.IdentityDet3 | src/radar/locate/mod.rs:466-470 | the unit test's 3x3 identity intrinsic has determinant 1 |
| Geometry.IdentityMinor4 | src/radar/locate/mod.rs:471 | the first-row, first-column minor of the 4x4 identity is 1 |
| Geometry.IdentityDet4 | src/radar/locate/mod.rs:471-472 | the 4x4 identity transform has determinant 1 |
| Geometry.IdentityTopLeft | src/radar/locate/mod.rs:471-472 | the rotation block of the 4x4 identity is the 3x3 identity |
| Geometry.IdentityRotationDet | src/radar/locate/mod.rs:471-472 | the rotation block of the 4x4 identity has determinant 1 |
| Geometry.IdentityIntrinsicAccepted | src/radar/locate/mod.rs:466-470 | `MatrixWithInverse::try_from` accepts the 3x3 identity |
| Geometry.IdentityInvertible | src/radar/locate/mod.rs:466-486 | the unit test's identity matrices meet every determinant condition of construction, so, by the success condition of `Locate.Locator.New`, `Locator::new` accepts them |
| Geometry.CameraToLidar | src/radar/locate/mod.rs:156-169 | reference definition of `camera_to_lidar`, `R^-1 (K^-1 (z [x; y; 1]) + t^-1)`; its promise is stated by `Geometry.RoundTrip` |
| Geometry.RoundTrip | src/radar/locate/mod.rs:156-182 | with validated geometry and a non-zero projected depth, `camera_to_lidar(lidar_to_camera(p)) == p` (test at :432-461) |
| DepthMap.Blank | src/radar/locate/mod.rs:120 | a fresh image buffer is 0 at every pixel |
| DepthMap.FrameDepthUntouched | src/radar/locate/mod.rs:186-211 | a frame-raster pixel that no kept point lands on is 0 |
| DepthMap.FrameDepthLastWins | src/radar/locate/mod.rs:186-211 | a frame-raster pixel holds the depth of the last kept point that lands on it |
| DepthMap.RaisedBackgroundIsMax | src/radar/locate/mod.rs:213-216 | the raised background never decreases, bounds every depth landing on the pixel, and equals the old value or one of those depths |
| DepthMap.RaisedBackgroundUntouched | src/radar/locate/mod.rs:213-216 | a pixel no kept point lands on keeps its background value |
| DepthMap.PushFrame | src/radar/locate/mod.rs:219-222 | the raster is appended, and the oldest raster is dropped once the queue would exceed 3 |
| DepthMap.Recent | src/radar/locate/mod.rs:13 | the queue holds the last `min(n, 3)` frame rasters, oldest first |
| DepthMap.RecentPush | src/radar/locate/mod.rs:219-222 | pushing a frame onto the recent rasters of a history gives the recent rasters of the longer history |
| DepthMap.DifferenceRaster | src/radar/locate/mod.rs:224-243 | the difference raster has the image's size, and each pixel is the newest passing distance of its queued depths against the background |
| DepthMap.NewestPassingNone | src/radar/locate/mod.rs:224-241 | a difference pixel is 0 when no queued depth is strictly between the two thresholds |
| DepthMap.NewestPassingNewest | src/radar/locate/mod.rs:224-241 | a difference pixel is `abs(d_k - bg)` for the newest queued depth `d_k` that passes |
| DepthMap.NewestPassingKeeps | src/radar/locate/mod.rs:234-239 | a newer raster that fails the thresholds does not clear an older difference |
| DepthMap.TwoFrameScenario | src/radar/locate/mod.rs:486-495 | with the unit test's frame hits (frame 0 at `(2, 3)` depth 1; frame 1 at `(0, 1)` depth 3 and `(2, 3)` depth 1), pixel `(0, 1)` comes out as 3 from its two queued depths against its raised background |
| DepthMap.TwoFrameDifference | src/radar/locate/mod.rs:486-495 | the same hits through a fresh 640 by 480 state's queue push, background raise and difference raster give 3 at pixel `(0, 1)` |
| Cluster.ForegroundPixelsMembers | src/radar/locate/mod.rs:250-261 | the collected pixels are exactly the non-zero pixels of the raster, each with its depth and each once |
| Cluster.ZipMapSpec | src/radar/locate/mod.rs:270-276 | the zipped map's keys are the first `min(points, labels)` pixels, each mapped to the label at its own position |
| Cluster.UnprojectAll | src/radar/locate/mod.rs:263-266 | one lidar point per collected pixel, in order: `camera_to_lidar` of the pixel at its depth |
| Cluster.CategoryMapDomain | src/radar/locate/mod.rs:246-279 | every key is a non-zero pixel of the raster; with one label per point the keys are exactly the non-zero pixels; each pixel gets its own point's label |
| Search.ScanWindow | src/radar/locate/mod.rs:293-298 | reference definition of the scan window's saturated floor and ceiling bounds; its promise is stated by `Search.ScanWindowCovers` and `Search.ScanWindowTight` |
| Search.ScanWindowCovers | src/radar/locate/mod.rs:293-298 | every pixel inside the box extent (in `u32` range) lies in the scan window |
| Search.ScanWindowTight | src/radar/locate/mod.rs:293-298 | below the `u32` ceiling, the window reaches less than one pixel past the box on either side |
| Search.ScannedMembers | src/radar/locate/mod.rs:300-315 | the nested loops with their `break`s visit exactly the window's pixels that lie inside the image |
| Search.BucketMembers | src/radar/locate/mod.rs:308-313 | a bucket holds exactly the scanned pixels that the map gives that label |
| Search.BucketNonEmpty | src/radar/locate/mod.rs:308-313 | every label met in the scan has a non-empty bucket |
| Search.BucketingPush | src/radar/locate/mod.rs:308-313 | one scan step keeps the label-to-bucket map exact: nothing changes for an unmapped pixel, the pixel is appended to its label's bucket, and a new label opens a bucket |
| Search.BucketAbsent | src/radar/locate/mod.rs:308-313 | a label met by no scanned pixel has an empty bucket |
| Search.FoldStatsCount | src/radar/locate/mod.rs:331-358 | the fold counts its points |
| Search.FoldStatsWithin | src/radar/locate/mod.rs:331-358 | the fold's minimum and maximum bound every point on every axis |
| Search.FoldStatsSum | src/radar/locate/mod.rs:331-358 | the fold's sum lies between count times minimum and count times maximum on every axis |
| Search.Summarize | src/radar/locate/mod.rs:360-375 | reference definition of turning the fold's statistics into a location; its promise is stated by `Search.SummarizeSpec` |
| Search.SummarizeSpec | src/radar/locate/mod.rs:360-375 | no location exactly when no point was folded; otherwise the centre and every point lie within the minimum and maximum, and each extent is maximum minus minimum, hence non-negative |
| Search.BucketPointsAll | src/radar/locate/mod.rs:321-330 | when every pixel of a bucket has non-zero depth, every pixel contributes a point |
| Search.NoLabelsIff | src/radar/locate/mod.rs:300-320 | the scan finds no label exactly when no pixel of the clipped window is mapped |
| Search.LocationOfSome | src/radar/locate/mod.rs:317-375 | over a map of non-zero pixels (as built at src/radar/locate/mod.rs:255), the fold of a scanned label's bucket counts one point per pixel of the bucket, and the location it yields is present with its centre between that fold's minimum and maximum |
| Search.SearchNoneIff | src/radar/locate/mod.rs:317-378 | over a map of non-zero pixels, a box's result is `None` exactly when no mapped pixel lies in its window; otherwise its extents are non-negative and it is the summary of a largest bucket's fold, with its centre between that fold's minimum and maximum |
| Search.EmptyOutcome | src/radar/locate/mod.rs:317-376 | a scan that opened no bucket makes the box's result `None` |
| Search.PickedOutcome | src/radar/locate/mod.rs:317-373 | folding a largest bucket of the scan gives an allowed result for the box |
| Locate.Snapshot | src/radar/locate/mod.rs:94 | the raster of an image buffer has the buffer's size and pixels |
| Locate.ProjectPoint | src/radar/locate/mod.rs:202-207 | reference definition of the point loop's projection and `round() as i32` of the pixel coordinates, including the zero-depth case |
| Locate.Landing | src/radar/locate/mod.rs:189-210 | reference definition of whether and where one point lands; its promise is stated by `Locate.LandingSpec` |
| Locate.LandingSpec | src/radar/locate/mod.rs:189-210 | a point is kept only when it passes the coordinate filter and lands in the image; with a non-zero projected depth it is kept exactly when its rounded pixel is in the image, at that pixel and depth; with a zero projected depth only the camera centre lands, at `(0, 0)` with depth 0 |
| Locate.LandingNearProjection | src/radar/locate/mod.rs:202-207 | a kept point's pixel is within half a pixel of its projection on each axis |
| Locate.IdentityProjection | src/radar/locate/mod.rs:170-181 | with identity intrinsic and transform, a point with non-zero depth projects to `(x / z, y / z, z)` |
| Locate.IdentityLanding | src/radar/locate/mod.rs:189-210 | with identity geometry, an accepted point lands at its rounded `(x / z, y / z)` with depth `z` when that pixel is in the image |
| Locate.UnitTestLandingNear | src/radar/locate/mod.rs:488-489 | the unit test's point `(2, 3, 1)` lands at pixel `(2, 3)` with depth 1 |
| Locate.UnitTestLandingFar | src/radar/locate/mod.rs:489 | the unit test's point `(1, 2, 3)` lands at pixel `(0, 1)` with depth 3, since `1/3` rounds to 0 and `2/3` to 1 |
| Locate.LandingsOfFrames | src/radar/locate/mod.rs:189-217 | the landings of a one-point and a two-point frame are their points' landings in order |
| Locate.UnitTestGetRobotDepthMap | src/radar/locate/mod.rs:463-497 | `test_get_robot_depth_map` run on the locator: construction accepts the identity matrices, and after the two frames pixel `(0, 1)` of the returned difference buffer is 3 |
| Locate.UnitTestIdentityLocator | src/radar/locate/mod.rs:466-486 | `Locator::new` on the test's identity matrices and parameters succeeds, giving a fresh locator with those fields |
| Locate.UnitTestLocator | src/radar/locate/mod.rs:474-486 | `Locator::new` on the test's parameters succeeds for matrices whose determinants and rotation-block determinant are 1 |
| Locate.UnitTestFrame | src/radar/locate/mod.rs:491-494 | one `get_robot_depth_map` call updates the queue and background as it specifies, and returns pixel `(0, 1)` of the new difference raster |
| Locate.UnitTestFrames | src/radar/locate/mod.rs:488-495 | on a fresh identity-geometry locator, the test's two frames give 3 at pixel `(0, 1)` |
| Locate.UnitTestDepthMap | src/radar/locate/mod.rs:464-496 | with the identity intrinsic and lidar-to-camera matrices the test passes to `Locator::new` (which `Locate.Locator.New` stores unchanged), thresholds 0.1 and 10 and range limit 100, the test's two frames projected and rounded give 3 at pixel `(0, 1)` of the second difference raster, as the depth-map update specifies it |
| DepthMap.FirstFrameQuiet | src/radar/locate/mod.rs:184-244 | on a fresh state, a frame none of whose points lands gives a difference raster that is 0 at every pixel, whatever the thresholds |
| DepthMap.WarmedUpDifference | src/radar/locate/mod.rs:213-241 | after a frame that lands depth 5 at `(1, 1)`, an empty frame leaves the difference there at 5 when the thresholds bracket 5 |
| Locate.FreshEmptyFrameNone | src/radar/locate/mod.rs:127-139 | a fresh locator given no points, or only points that do not land, finds nothing for any box, whatever labels `dbscan` returns |
| Locate.WarmedUpEmptyFrameSome | src/radar/locate/mod.rs:127-139 | with identity geometry, a locator that saw the point `(5, 5, 5)` finds a location for the box around `(1, 1)` on an empty frame, given one label per clustered point |
| Locate.WarmedUpLandings | src/radar/locate/mod.rs:189-217 | with identity geometry, `(5, 5, 5)` lands at `(1, 1)` with depth 5, and an empty frame has no landings |
| Locate.WarmedUpSearch | src/radar/locate/mod.rs:127-139 | the frames of `Locate.WarmedUpEmptyFrameSome`, stated by their landings, make the box around `(1, 1)` find a location |
| Locate.UnitBoxSearchSome | src/radar/locate/mod.rs:291-378 | with one label per clustered point, a non-zero pixel `(1, 1)` makes the box around it find a location |
| Locate.UnitBoxWindow | src/radar/locate/mod.rs:293-298 | the box centred on `(1, 1)` with extents 2 scans columns and rows `0..=2` |
| Locate.Landings | src/radar/locate/mod.rs:189-217 | one landing per point, in order |
| Locate.DifferenceStep | src/radar/locate/mod.rs:226-241 | visiting queued raster `n` overwrites a pixel exactly when its distance passes the thresholds |
| Locate.NewImage | src/radar/locate/mod.rs:186-187 | a fresh buffer of the requested size with every pixel 0 |
| Locate.Locator.constructor | src/radar/locate/mod.rs:111-122 | stores the fields; the background is all zeros with the image's size; the queue is empty |
| Locate.Locator.New | src/radar/locate/mod.rs:99-125 | fails with the first matrix that cannot be inverted (intrinsic, then lidar-to-camera, then world-to-camera); succeeds exactly when all three invert, that is, exactly when the intrinsic, both transforms and both rotation blocks have non-zero determinants, giving a fresh locator as the constructor describes |
| Locate.Locator.CameraRoundTrip | src/radar/locate/mod.rs:156-182 | for the geometry the locator was built with, unprojecting the projection of a point with non-zero camera depth gives the point back |
| Locate.Locator.DrawPoint | src/radar/locate/mod.rs:189-216 | a kept point writes its depth at its pixel and raises the background there; every other pixel is unchanged |
| Locate.Locator.DrawFrame | src/radar/locate/mod.rs:186-217 | the new raster is the frame raster of the points' landings, and the background is raised by them pixel by pixel |
| Locate.Locator.EnqueueFrame | src/radar/locate/mod.rs:219-222 | the frame raster joins the back of the queue, the oldest raster leaves when the queue grows past three, and the history records the frame |
| Locate.Locator.DifferenceMap | src/radar/locate/mod.rs:224-243 | the returned raster is the difference raster of the queue against the background |
| Locate.Locator.ApplyRaster | src/radar/locate/mod.rs:226-241 | visiting queued raster `n` over every pixel advances each pixel's difference from `n` to `n + 1` rasters |
| Locate.Locator.ApplyColumn | src/radar/locate/mod.rs:226-241 | visiting column `x` of queued raster `n` advances exactly that column's pixels |
| Locate.Locator.GetRobotDepthMap | src/radar/locate/mod.rs:184-244 | the frame raster is appended to the history and pushed onto the queue; the background is raised; the result is the difference raster of the new queue against the new background |
| Locate.Locator.ClusterAndGetCategory | src/radar/locate/mod.rs:246-279 | the map is the zip of the raster's row-major non-zero pixels with `dbscan`'s labels for their unprojected points; every key is a non-zero pixel |
| Locate.Locator.FoldBucket | src/radar/locate/mod.rs:321-358 | the accumulator is the fold over the bucket's non-zero pixels, unprojected |
| Locate.Locator.SearchOne | src/radar/locate/mod.rs:291-378 | one box's result is `None` when the window holds no mapped pixel, and otherwise the location of some largest bucket |
| Locate.Locator.SearchForLocation | src/radar/locate/mod.rs:281-381 | one result per box, in the boxes' order, each as `SearchOne` states |
| Locate.Locator.LocateDetections | src/radar/locate/mod.rs:127-139 | the depth state is updated as `GetRobotDepthMap` states, and every detection's result is the search outcome of its box over the new difference raster and its cluster map; on a fresh locator, a frame none of whose points lands finds nothing for every detection |
| Locate.ClusteredSearchNoneIff | src/radar/locate/mod.rs:132-138 | with one label per clustered point, a box finds nothing exactly when its window holds no non-zero pixel of the difference raster |
| Locate.ScanRowInto | src/radar/locate/mod.rs:304-314 | the inner loop extends the label buckets exactly by the mapped pixels of the row, stopping at the image edge |
| Locate.ScanBuckets | src/radar/locate/mod.rs:292-315 | the buckets are exactly the label buckets of the scanned pixels, and the key order lists exactly the labels that have a bucket |
| Locate.PickLargest | src/radar/locate/mod.rs:317-320 | nothing is found exactly when there are no buckets; otherwise the chosen bucket is no shorter than any other |
| Output.Decimal | src/lib.rs:64 | a non-empty string of decimal digits with no leading zero |
| Output.DecimalRoundTrip | src/lib.rs:64 | reading back the decimal form of `n` gives `n` |
| Output.DecimalInjective | src/lib.rs:64 | different counters give different decimal forms |
| Output.OutputDirs | src/lib.rs:27-33 | `root/images/images_i` for every `i < image_num`, then `root/points`, `root/labels` and `root/calibs` |
| Output.OutputDirsDistinct | src/lib.rs:27-33 | no directory of the layout is listed twice |
| Output.CreateOutputDirs | src/lib.rs:35-54 | the directories are created in layout order up to the first one the file system refuses, which is reported; without a refusal all are created |
| Output.CandidateInjective | src/lib.rs:64 | different counters give different candidate names |
| Output.SetOutputDirName | src/lib.rs:57-79 | an error when the root cannot be queried; the root itself when it does not exist; otherwise the root followed by the smallest counter whose name does not exist, or a panic at the first counter whose query fails |
| Output.TriedStep | src/lib.rs:63-72 | the next candidate has not been tried before, so the loop tries at most as many names as exist |
| Output.CandidateFresh | src/lib.rs:63-72 | the numbered name about to be tried has not been tried at a lower counter |
| Output.SensorEntriesMembers | src/lib.rs:286-290 | a sensor's entries are its located detections with their labels, paired by position |
| Output.FrameEntriesMembers | src/lib.rs:279-292 | an entry is recorded exactly when a sensor has both a locate and a detect result and the detection at that position was located |
| Output.LastWinsSpec | src/lib.rs:278-288 | the map's keys are the entries' labels, and each key holds the location of its last entry |
| Output.MergedLabels | src/lib.rs:278-292 | the merged map has a label exactly when some located detection carries it, and it holds the last such location |
| Output.MergeResults | src/lib.rs:278-292 | the `results_map` built by the nested zips is the last-writer-wins map of the frame's entries |
| Output.LineOf | src/lib.rs:295-305 | the fields of a line are centre x, y and z, then depth, width and height, a zero yaw, and the label's abbreviation |
| Output.EmitLines | src/lib.rs:294-309 | exactly one line per label of the map: the visit order lists every label exactly once, and line `k` is the line of the `k`-th visited label with its location; an order is chosen freely |
| Output.VisitOrderLines | src/lib.rs:294-309 | lines given by such a visit order number as many as the labels, include every label's line, and are each some label's line |
| Output.FrameLines | src/lib.rs:265-310 | no lines without a point cloud; otherwise exactly one line per label of the merged map, as `Output.EmitLines` states, so at most one line per distinct label |
| Output.LastWins | src/lib.rs:278-292 | reference definition of the `results_map` that the nested zips build: inserting entries in order, the last insert of a label wins |
| Output.Candidate | src/lib.rs:64 | reference definition of the candidate name `format!("{}{}", root_dir, counter)` |

## Left out

- f32 arithmetic:
  - Values are reals, and "normal" (`is_normal`) is read as non-zero, so subnormals, NaN and infinities are not modelled.
  - The one exception is the zero projected depth. There the `as i32` cast of an infinite or NaN quotient is written out in `ZeroDepthIndex`, but the sign of a zero divisor is not.
  - The `f32::MAX` seeds of the fold are kept as constants; the other float edge cases are not modelled.
- Point filter:
  - The filter also calls `is_empty` (src/radar/locate/mod.rs:190). That method is always false for a three-dimensional point, so it is left out.
- The 4x4 inverse:
  - Geometry.TryInverse4: states the cofactor formula and the zero-determinant case, but not that the product with the matrix is the identity.
  - Geometry.TransformTryFrom: the 4x4 inverse it stores is therefore only proved to be the scaled adjugate.
- Geometry.LidarToWorld: modelled as a function without a contract. It is unused by the code it belongs to, and no property of it is promised.
- `dbscan` (src/radar/locate/mod.rs:9-11):
  - The `cluster` module is not part of this model, so `dbscan` is an arbitrary function parameter.
  - Locate.ClusteredSearchNoneIff: assumes `dbscan` returns one label per point, as a requirement of the lemma.
- Parallel iteration (`par_bridge`, `into_par_iter`):
  - The model runs sequentially in `enumerate_pixels` order, row by row.
  - The collected pixel list is therefore row-major. Its order affects only which labels `dbscan` returns, not the map's keys.
- `HashMap` iteration order (src/radar/locate/mod.rs:317-320, src/lib.rs:294):
  - Locate.ScanBuckets: the scan records its labels in first-insertion order. Locate.PickLargest walks that order, so it keeps one particular largest bucket.
  - `SearchOutcome`: admits any largest bucket, so the specification does not depend on that order.
  - Output.EmitLines: lines come out in whatever order the set choice picks.
- Window scan left of the image:
  - Search.ScanWindowTight: a box entirely left of the image still scans column 0, because the upper bound saturates to 0. The lemma states this through `Max(c + e/2, 0)`, and does not claim the window stays inside the box there.
- Text formatting:
  - The label line's `{:.2}` float formatting (src/lib.rs:295-305) is left out; a line is a tuple of its fields.
  - The zero-padded label-file name (src/lib.rs:266) is left out.
  - The calibration file text, `save_calibs` (src/lib.rs:317-346), is left out.
- Orchestration and I/O in src/lib.rs:
  - left out: progress bars, frame alignment, detection, image and point-cloud saving, `File`/`BufWriter` writes and their errors, and the `× 1000` point scaling.
  - `create_output_dirs` and `set_output_dir_name` see the file system only through the sets of refused, existing and unqueryable paths.
- Output.SetOutputDirName: the counter is an unbounded natural number. In the source, `let mut counter = 0` (src/lib.rs:64) has no other type constraint, so it is an `i32`. After `i32::MAX` taken names, `counter += 1` (src/lib.rs:71) panics in a debug build or wraps to a negative number in a release build. That takes over two billion existing directories, so the model does not capture it.
- Empty input: the promise that an empty or all-rejected point list locates nothing holds only for a fresh locator (Locate.FreshEmptyFrameNone, and the last postcondition of Locate.Locator.LocateDetections). After the first frame it does not hold: the older queued rasters are still measured against the raised background, so an empty frame can locate a robot. Locate.WarmedUpEmptyFrameSome exhibits such a case. The model follows src/radar/locate/mod.rs:127-139 and 219-241.
- src/lib.rs and src/radar/locate/mod.rs disagree:
  - src/lib.rs:146 calls an `update_background_depth_map` that src/radar/locate/mod.rs does not define.
  - src/lib.rs:245-252 treats `locate_detections` as returning a `Result`, which it does not.
  - The locator is modelled as src/radar/locate/mod.rs writes it. The driver's per-sensor locate results are an input of Output.FrameLines.
- `MatrixWithInverse` is generic in its dimension. Only the 3x3 instance that the locator uses is modelled.
- scripts/generate_pointclouds.py writes random test data. It is I/O and randomness, so it is not part of this model.
