/**
 * Value-level specification of the location search: the scan window a
 * bounding box selects, the pixels that window visits, the per-label buckets
 * of mapped pixels, and the sum / count / min / max fold that turns the
 * largest bucket into a robot location.
 */
module Search {
  import opened Common
  import opened Geometry
  import opened DepthMap
  import opened Cluster

  /** A detection's box: centre and extent in pixels. */
  datatype BBox = BBox(xCenter: real, yCenter: real, width: real, height: real)

  /** A detection of the image detector: its box and its robot label. */
  datatype Detection<L> = Detection(bbox: BBox, robotLabel: L)

  /** A located robot: centroid in lidar coordinates and per-axis extents. */
  datatype RobotLocation = RobotLocation(center: Vec3, width: real, height: real, depth: real)

  /** The inclusive pixel ranges `xMin..=xMax` and `yMin..=yMax` a box selects. */
  datatype Window = Window(xMin: nat, xMax: nat, yMin: nat, yMax: nat)

  /** The window of a box: `floor(max(c - e/2, 0))` to `ceil(c + e/2)` on each axis, cast `as u32`. */
  function ScanWindow(b: BBox): Window {
    Window(SaturateU32(Floor(Max(b.xCenter - b.width / 2.0, 0.0))),
           SaturateU32(Ceil(b.xCenter + b.width / 2.0)),
           SaturateU32(Floor(Max(b.yCenter - b.height / 2.0, 0.0))),
           SaturateU32(Ceil(b.yCenter + b.height / 2.0)))
  }

  /** On one axis, a pixel index inside the box's extent lies in the window. */
  lemma WindowAxisCovers(c: real, e: real, lo: nat, hi: nat, n: nat)
    requires lo == SaturateU32(Floor(Max(c - e / 2.0, 0.0))) && hi == SaturateU32(Ceil(c + e / 2.0))
    requires n <= U32_MAX && c - e / 2.0 <= n as real <= c + e / 2.0
    ensures lo <= n <= hi
  {
    var a, b := Max(c - e / 2.0, 0.0), c + e / 2.0;
    assert Floor(a) <= n;
    assert Ceil(b) >= n;
  }

  /**
   * On one axis, below the `u32` ceiling the window reaches less than one
   * pixel beyond the extent on either side; an extent left of the image
   * still scans index 0, since the upper end saturates there.
   */
  lemma WindowAxisTight(c: real, e: real, lo: nat, hi: nat, n: nat)
    requires lo == SaturateU32(Floor(Max(c - e / 2.0, 0.0))) && hi == SaturateU32(Ceil(c + e / 2.0))
    requires lo <= n <= hi && hi < U32_MAX
    ensures c - e / 2.0 - 1.0 < n as real < Max(c + e / 2.0, 0.0) + 1.0
  {
  }

  /** Every pixel inside the box (and in `u32` range) is in its window. */
  lemma ScanWindowCovers(b: BBox, x: nat, y: nat)
    requires x <= U32_MAX && y <= U32_MAX
    requires b.xCenter - b.width / 2.0 <= x as real <= b.xCenter + b.width / 2.0
    requires b.yCenter - b.height / 2.0 <= y as real <= b.yCenter + b.height / 2.0
    ensures var win := ScanWindow(b); win.xMin <= x <= win.xMax && win.yMin <= y <= win.yMax
  {
    var win := ScanWindow(b);
    WindowAxisCovers(b.xCenter, b.width, win.xMin, win.xMax, x);
    WindowAxisCovers(b.yCenter, b.height, win.yMin, win.yMax, y);
  }

  /** Every pixel of a window not at the `u32` ceiling lies within one pixel of the box. */
  lemma ScanWindowTight(b: BBox, x: nat, y: nat)
    requires var win := ScanWindow(b);
             win.xMin <= x <= win.xMax < U32_MAX && win.yMin <= y <= win.yMax < U32_MAX
    ensures b.xCenter - b.width / 2.0 - 1.0 < x as real < Max(b.xCenter + b.width / 2.0, 0.0) + 1.0
    ensures b.yCenter - b.height / 2.0 - 1.0 < y as real < Max(b.yCenter + b.height / 2.0, 0.0) + 1.0
  {
    var win := ScanWindow(b);
    WindowAxisTight(b.xCenter, b.width, win.xMin, win.xMax, x);
    WindowAxisTight(b.yCenter, b.height, win.yMin, win.yMax, y);
  }

  // ---------------------------------------------------------- scan order

  /** One past the last column (row) the loop visits before `break`ing at the image edge. */
  function ScanEnd(last: nat, size: nat): nat {
    if last < size then last + 1 else size
  }

  /** The pixels `(x', y)` with `x0 <= x' < x`, left to right. */
  function ScanRow(y: nat, x0: nat, x: nat): seq<Pixel>
    decreases x
  {
    if x <= x0 then [] else ScanRow(y, x0, x - 1) + [(x - 1, y)]
  }

  /** The rows `y0 <= y' < y` of columns `x0 <= x' < x1`, row by row. */
  function ScanRows(x0: nat, x1: nat, y0: nat, y: nat): seq<Pixel>
    decreases y
  {
    if y <= y0 then [] else ScanRows(x0, x1, y0, y - 1) + ScanRow(y - 1, x0, x1)
  }

  /** The pixels the nested `for y` / `for x` loops visit, in order. */
  function Scanned(win: Window, w: nat, h: nat): seq<Pixel> {
    ScanRows(win.xMin, ScanEnd(win.xMax, w), win.yMin, ScanEnd(win.yMax, h))
  }

  lemma {:induction false} ScanRowMembers(y: nat, x0: nat, x: nat)
    ensures forall p :: p in ScanRow(y, x0, x) <==> p.1 == y && x0 <= p.0 < x
    decreases x
  {
    if x > x0 {
      ScanRowMembers(y, x0, x - 1);
    }
  }

  lemma ScanRowsMembers(x0: nat, x1: nat, y0: nat, y: nat)
    ensures forall p :: p in ScanRows(x0, x1, y0, y) <==> x0 <= p.0 < x1 && y0 <= p.1 < y
  {
    forall p: Pixel
      ensures p in ScanRows(x0, x1, y0, y) <==> x0 <= p.0 < x1 && y0 <= p.1 < y
    {
      ScanRowsMember(x0, x1, y0, y, p);
    }
  }

  /** One pixel is visited by the rows `y0 <= y' < y` exactly when it lies in them. */
  lemma {:induction false} ScanRowsMember(x0: nat, x1: nat, y0: nat, y: nat, p: Pixel)
    ensures p in ScanRows(x0, x1, y0, y) <==> x0 <= p.0 < x1 && y0 <= p.1 < y
    decreases y
  {
    if y > y0 {
      ScanRowsMember(x0, x1, y0, y - 1, p);
      ScanRowMembers(y - 1, x0, x1);
      var above, row := ScanRows(x0, x1, y0, y - 1), ScanRow(y - 1, x0, x1);
      assert ScanRows(x0, x1, y0, y) == above + row;
      assert p in above + row <==> p in above || p in row;
    }
  }

  /** The scan visits exactly the window's pixels that lie inside the image. */
  lemma ScannedMembers(win: Window, w: nat, h: nat)
    ensures forall p :: p in Scanned(win, w, h) <==>
              win.xMin <= p.0 <= win.xMax && p.0 < w && win.yMin <= p.1 <= win.yMax && p.1 < h
  {
    ScanRowsMembers(win.xMin, ScanEnd(win.xMax, w), win.yMin, ScanEnd(win.yMax, h));
  }

  // ------------------------------------------------------------- buckets

  /** The scanned pixels `mapping` labels `c`, in scan order (`entry(c).push`). */
  function Bucket(ps: seq<Pixel>, mapping: map<Pixel, int>, c: int): seq<Pixel>
    decreases |ps|
  {
    if |ps| == 0 then []
    else
      var p := ps[|ps| - 1];
      Bucket(ps[..|ps| - 1], mapping, c) + (if p in mapping && mapping[p] == c then [p] else [])
  }

  /** The labels of the scanned pixels that `mapping` holds: the keys of `category_pixels`. */
  function Labels(ps: seq<Pixel>, mapping: map<Pixel, int>): set<int> {
    set p | p in ps && p in mapping :: mapping[p]
  }

  /** `c` is a label whose bucket is at least as long as every other one. */
  predicate MaximalLabel(ps: seq<Pixel>, mapping: map<Pixel, int>, c: int) {
    c in Labels(ps, mapping) &&
    forall c' :: c' in Labels(ps, mapping) ==> |Bucket(ps, mapping, c')| <= |Bucket(ps, mapping, c)|
  }

  /** A bucket holds exactly the scanned pixels with that label. */
  lemma {:induction false} BucketMembers(ps: seq<Pixel>, mapping: map<Pixel, int>, c: int)
    ensures forall p :: p in Bucket(ps, mapping, c) <==> p in ps && p in mapping && mapping[p] == c
    decreases |ps|
  {
    if |ps| > 0 {
      var init := ps[..|ps| - 1];
      BucketMembers(init, mapping, c);
      assert ps == init + [ps[|ps| - 1]];
    }
  }

  /** Every label of the scan has a non-empty bucket. */
  lemma BucketNonEmpty(ps: seq<Pixel>, mapping: map<Pixel, int>, c: int)
    requires c in Labels(ps, mapping)
    ensures |Bucket(ps, mapping, c)| > 0
  {
    assert exists p :: p in ps && p in mapping && mapping[p] == c;
    var p :| p in ps && p in mapping && mapping[p] == c;
    BucketMembers(ps, mapping, c);
    assert p in Bucket(ps, mapping, c);
  }

  /** Appending a scanned pixel adds its label, if it is mapped. */
  lemma LabelsAppend(ps: seq<Pixel>, mapping: map<Pixel, int>, p: Pixel)
    ensures Labels(ps + [p], mapping) == Labels(ps, mapping) + (if p in mapping then {mapping[p]} else {})
  {
    LabelsMembers(ps, mapping);
    LabelsMembers(ps + [p], mapping);
  }

  /** Appending a scanned pixel pushes it onto its label's bucket only. */
  lemma BucketAppend(ps: seq<Pixel>, mapping: map<Pixel, int>, p: Pixel, c: int)
    ensures Bucket(ps + [p], mapping, c) == Bucket(ps, mapping, c) + (if p in mapping && mapping[p] == c then [p] else [])
  {
    assert (ps + [p])[..|ps|] == ps;
  }

  /** A label the scan has not met has an empty bucket. */
  lemma {:induction false} BucketAbsent(ps: seq<Pixel>, mapping: map<Pixel, int>, c: int)
    requires c !in Labels(ps, mapping)
    ensures Bucket(ps, mapping, c) == []
    decreases |ps|
  {
    if |ps| > 0 {
      var init, p := ps[..|ps| - 1], ps[|ps| - 1];
      assert ps == init + [p];
      LabelsAppend(init, mapping, p);
      BucketAbsent(init, mapping, c);
    }
  }

  /**
   * `buckets` is the `category_pixels` map of the scanned pixels `ps`: one
   * entry per label met, holding that label's bucket, with `order` listing
   * the labels met.
   */
  ghost predicate IsBucketing(buckets: map<int, seq<Pixel>>, order: seq<int>, ps: seq<Pixel>, mapping: map<Pixel, int>) {
    && (forall c :: c in buckets <==> c in Labels(ps, mapping))
    && (forall c :: c in buckets ==> buckets[c] == Bucket(ps, mapping, c))
    && (forall c :: c in order <==> c in buckets)
  }

  /**
   * One step of the window scan keeps the bucketing: an unmapped pixel
   * changes nothing, a mapped one is appended to its label's bucket, and a
   * label met for the first time opens a new bucket at the end of `order`.
   */
  lemma BucketingPush(buckets: map<int, seq<Pixel>>, order: seq<int>, ps: seq<Pixel>, mapping: map<Pixel, int>, p: Pixel)
    requires IsBucketing(buckets, order, ps, mapping)
    ensures p !in mapping ==> IsBucketing(buckets, order, ps + [p], mapping)
    ensures p in mapping && mapping[p] in buckets ==>
              IsBucketing(buckets[mapping[p] := buckets[mapping[p]] + [p]], order, ps + [p], mapping)
    ensures p in mapping && mapping[p] !in buckets ==>
              IsBucketing(buckets[mapping[p] := [p]], order + [mapping[p]], ps + [p], mapping)
  {
    LabelsAppend(ps, mapping, p);
    var ps' := ps + [p];
    if p !in mapping {
      forall c | c in buckets
        ensures buckets[c] == Bucket(ps', mapping, c)
      {
        BucketAppend(ps, mapping, p, c);
      }
    } else if mapping[p] in buckets {
      var b' := buckets[mapping[p] := buckets[mapping[p]] + [p]];
      forall c | c in b'
        ensures b'[c] == Bucket(ps', mapping, c)
      {
        BucketAppend(ps, mapping, p, c);
      }
    } else {
      var b' := buckets[mapping[p] := [p]];
      BucketAbsent(ps, mapping, mapping[p]);
      forall c | c in b'
        ensures b'[c] == Bucket(ps', mapping, c)
      {
        BucketAppend(ps, mapping, p, c);
      }
      assert forall c :: c in order + [mapping[p]] <==> c in b';
    }
  }

  /** Where a scan loop that stops at `x` ends: at the clipped end, or at its start with nothing visited. */
  lemma ScanStop(x0: nat, last: nat, size: nat, x: nat)
    requires x0 <= x && (x == x0 || x <= size) && (x <= last + 1 || x == x0)
    requires x > last || x >= size
    ensures x == ScanEnd(last, size) || (x == x0 && ScanEnd(last, size) <= x0)
  {
  }

  // ---------------------------------------------------------- statistics

  /** `f32::MAX`; the fold seeds its minimum with it and its maximum with `f32::MIN == -f32::MAX`. */
  const F32_MAX: real := 340282346638528859811704183484516925440.0

  /** The fold accumulator: coordinate sum, point count, per-axis minimum and maximum. */
  datatype Stats = Stats(sum: Vec3, count: nat, lo: Vec3, hi: Vec3)

  const Seed: Stats := Stats(Vec3(0.0, 0.0, 0.0), 0, Vec3(F32_MAX, F32_MAX, F32_MAX), Vec3(-F32_MAX, -F32_MAX, -F32_MAX))

  /** One step of the fold. */
  function Accumulate(s: Stats, p: Vec3): Stats {
    Stats(Add3(s.sum, p), s.count + 1,
          Vec3(Min(s.lo.x, p.x), Min(s.lo.y, p.y), Min(s.lo.z, p.z)),
          Vec3(Max(s.hi.x, p.x), Max(s.hi.y, p.y), Max(s.hi.z, p.z)))
  }

  function FoldStats(points: seq<Vec3>): Stats
    decreases |points|
  {
    if |points| == 0 then Seed else Accumulate(FoldStats(points[..|points| - 1]), points[|points| - 1])
  }

  /** The location of a folded bucket; `None` when no point contributed. */
  function Summarize(s: Stats): Option<RobotLocation> {
    if s.count > 0 then
      var n := s.count as real;
      Some(RobotLocation(Vec3(s.sum.x / n, s.sum.y / n, s.sum.z / n),
                         s.hi.x - s.lo.x, s.hi.y - s.lo.y, s.hi.z - s.lo.z))
    else None
  }

  /** `lo <= p <= hi` on every axis. */
  predicate Within(lo: Vec3, p: Vec3, hi: Vec3) {
    lo.x <= p.x <= hi.x && lo.y <= p.y <= hi.y && lo.z <= p.z <= hi.z
  }

  /** The fold counts its points. */
  lemma {:induction false} FoldStatsCount(points: seq<Vec3>)
    ensures FoldStats(points).count == |points|
    decreases |points|
  {
    if |points| > 0 {
      FoldStatsCount(points[..|points| - 1]);
    }
  }

  /** The fold's minimum and maximum bound every point on every axis. */
  lemma {:induction false} FoldStatsWithin(points: seq<Vec3>)
    ensures forall i :: 0 <= i < |points| ==> Within(FoldStats(points).lo, points[i], FoldStats(points).hi)
    decreases |points|
  {
    if |points| > 0 {
      var init := points[..|points| - 1];
      FoldStatsWithin(init);
      assert forall i :: 0 <= i < |init| ==> points[i] == init[i];
    }
  }

  /** On every axis the fold's sum lies between `count` times its minimum and `count` times its maximum. */
  lemma {:induction false} FoldStatsSum(points: seq<Vec3>)
    ensures var s := FoldStats(points); var n := |points| as real;
            Times(n, s.lo.x) <= s.sum.x <= Times(n, s.hi.x) &&
            Times(n, s.lo.y) <= s.sum.y <= Times(n, s.hi.y) &&
            Times(n, s.lo.z) <= s.sum.z <= Times(n, s.hi.z)
    decreases |points|
  {
    if |points| > 0 {
      var init := points[..|points| - 1];
      FoldStatsSum(init);
      var s0, p := FoldStats(init), points[|points| - 1];
      var s := Accumulate(s0, p);
      var n := |init| as real;
      SumStep(n, s0.lo.x, s.lo.x, s0.sum.x, p.x, s0.hi.x, s.hi.x);
      SumStep(n, s0.lo.y, s.lo.y, s0.sum.y, p.y, s0.hi.y, s.hi.y);
      SumStep(n, s0.lo.z, s.lo.z, s0.sum.z, p.z, s0.hi.z, s.hi.z);
    } else {
      assert Times(0.0, F32_MAX) == 0.0 && Times(0.0, -F32_MAX) == 0.0;
    }
  }

  /** One axis of the inductive step of `FoldStatsSum`. */
  lemma SumStep(n: real, lo0: real, lo: real, sum: real, v: real, hi0: real, hi: real)
    requires n >= 0.0 && Times(n, lo0) <= sum <= Times(n, hi0)
    requires lo == Min(lo0, v) && hi == Max(hi0, v)
    ensures Times(n + 1.0, lo) <= sum + v <= Times(n + 1.0, hi)
  {
    MulMono(n, lo, lo0);
    MulMono(n, hi0, hi);
    assert Times(n + 1.0, lo) == Times(n, lo) + lo;
    assert Times(n + 1.0, hi) == Times(n, hi) + hi;
  }

  lemma MulMono(n: real, a: real, b: real)
    requires n >= 0.0 && a <= b
    ensures Times(n, a) <= Times(n, b)
  {
    assert Times(n, b) - Times(n, a) == n * (b - a);
  }

  /** Dividing `n * lo <= sum <= n * hi` by a positive count. */
  lemma MeanBounds(n: real, lo: real, sum: real, hi: real)
    requires n > 0.0 && Times(n, lo) <= sum <= Times(n, hi)
    ensures lo <= sum / n <= hi
  {
    var q := sum / n;
    assert sum == n * q;
    PositiveFactor(n, q - lo);
    PositiveFactor(n, hi - q);
  }

  lemma PositiveFactor(n: real, d: real)
    requires n > 0.0 && n * d >= 0.0
    ensures d >= 0.0
  {
  }

  /**
   * A fold over no points gives no location; over at least one point, its
   * centre lies between the minimum and the maximum on every axis, every
   * point does too, and every extent is non-negative.
   */
  lemma SummarizeSpec(points: seq<Vec3>)
    ensures Summarize(FoldStats(points)).None? <==> |points| == 0
    ensures |points| > 0 ==>
              var s := FoldStats(points); var loc := Summarize(s).value;
              Within(s.lo, loc.center, s.hi) &&
              loc.width >= 0.0 && loc.height >= 0.0 && loc.depth >= 0.0 &&
              loc.width == s.hi.x - s.lo.x && loc.height == s.hi.y - s.lo.y && loc.depth == s.hi.z - s.lo.z &&
              forall i :: 0 <= i < |points| ==> Within(s.lo, points[i], s.hi)
  {
    FoldStatsCount(points);
    FoldStatsWithin(points);
    FoldStatsSum(points);
    if |points| > 0 {
      var s := FoldStats(points);
      var n := |points| as real;
      MeanBounds(n, s.lo.x, s.sum.x, s.hi.x);
      MeanBounds(n, s.lo.y, s.sum.y, s.hi.y);
      MeanBounds(n, s.lo.z, s.sum.z, s.hi.z);
      assert Within(s.lo, points[0], s.hi);
    }
  }

  // ------------------------------------------------------------ search

  /**
   * The lidar points of a bucket: the pixels whose difference depth is
   * non-zero, unprojected at that depth.
   */
  function BucketPoints(k: MatrixWithInverse, t: Transform, r: Raster, w: nat, h: nat, ps: seq<Pixel>): seq<Vec3>
    requires IsRaster(r, w, h)
    requires forall p :: p in ps ==> p.0 < w && p.1 < h
    decreases |ps|
  {
    if |ps| == 0 then []
    else
      var p := ps[|ps| - 1];
      var init := BucketPoints(k, t, r, w, h, ps[..|ps| - 1]);
      if Foreground(r[p.0][p.1]) then init + [Unproject(k, t, CameraPoint(p.0, p.1, r[p.0][p.1]))] else init
  }

  /** When every pixel of the bucket has non-zero depth, each contributes one point. */
  lemma {:induction false} BucketPointsAll(k: MatrixWithInverse, t: Transform, r: Raster, w: nat, h: nat, ps: seq<Pixel>)
    requires IsRaster(r, w, h)
    requires forall p :: p in ps ==> p.0 < w && p.1 < h && Foreground(r[p.0][p.1])
    ensures |BucketPoints(k, t, r, w, h, ps)| == |ps|
    decreases |ps|
  {
    if |ps| > 0 {
      BucketPointsAll(k, t, r, w, h, ps[..|ps| - 1]);
    }
  }

  /** The keys of `mapping` are pixels of the image with non-zero difference depth. */
  predicate MappedForeground(r: Raster, w: nat, h: nat, mapping: map<Pixel, int>)
    requires IsRaster(r, w, h)
  {
    forall p :: p in mapping ==> p.0 < w && p.1 < h && Foreground(r[p.0][p.1])
  }

  /** All scanned pixels lie in the image. */
  lemma ScannedInImage(win: Window, w: nat, h: nat)
    ensures forall p :: p in Scanned(win, w, h) ==> p.0 < w && p.1 < h
  {
    ScannedMembers(win, w, h);
  }

  /** The fold over the points of the bucket of label `c`. */
  function BucketFold(k: MatrixWithInverse, t: Transform, r: Raster, w: nat, h: nat,
                      mapping: map<Pixel, int>, b: BBox, c: int): Stats
    requires IsRaster(r, w, h)
  {
    var ps := Scanned(ScanWindow(b), w, h);
    ScannedInImage(ScanWindow(b), w, h);
    BucketMembers(ps, mapping, c);
    FoldStats(BucketPoints(k, t, r, w, h, Bucket(ps, mapping, c)))
  }

  /** The location the search reports for the bucket of label `c`. */
  function LocationOf(k: MatrixWithInverse, t: Transform, r: Raster, w: nat, h: nat,
                      mapping: map<Pixel, int>, b: BBox, c: int): Option<RobotLocation>
    requires IsRaster(r, w, h)
  {
    Summarize(BucketFold(k, t, r, w, h, mapping, b, c))
  }

  /**
   * What `search_for_location` may return for one box: `None` when no
   * scanned pixel is mapped, otherwise the location of some bucket of maximal
   * length (which one among equals is left to the map's iteration order).
   */
  predicate SearchOutcome(k: MatrixWithInverse, t: Transform, r: Raster, w: nat, h: nat,
                          mapping: map<Pixel, int>, b: BBox, res: Option<RobotLocation>)
    requires IsRaster(r, w, h)
  {
    var ps := Scanned(ScanWindow(b), w, h);
    if Labels(ps, mapping) == {} then res.None?
    else exists c :: c in Labels(ps, mapping) && MaximalLabel(ps, mapping, c) && res == LocationOf(k, t, r, w, h, mapping, b, c)
  }

  /** A scan that met no label: the search finds nothing. */
  lemma EmptyOutcome(k: MatrixWithInverse, t: Transform, r: Raster, w: nat, h: nat,
                     mapping: map<Pixel, int>, b: BBox, buckets: map<int, seq<Pixel>>, order: seq<int>)
    requires IsRaster(r, w, h)
    requires IsBucketing(buckets, order, Scanned(ScanWindow(b), w, h), mapping) && |order| == 0
    ensures SearchOutcome(k, t, r, w, h, mapping, b, None)
  {
    var ps := Scanned(ScanWindow(b), w, h);
    assert forall c :: c !in Labels(ps, mapping);
    assert Labels(ps, mapping) == {};
  }

  /** The location of a largest bucket of the scan is an outcome of the search. */
  lemma PickedOutcome(k: MatrixWithInverse, t: Transform, r: Raster, w: nat, h: nat,
                      mapping: map<Pixel, int>, b: BBox, buckets: map<int, seq<Pixel>>, order: seq<int>, best: int)
    requires IsRaster(r, w, h)
    requires IsBucketing(buckets, order, Scanned(ScanWindow(b), w, h), mapping)
    requires best in buckets && forall c :: c in buckets ==> |buckets[c]| <= |buckets[best]|
    ensures forall p :: p in buckets[best] ==> p.0 < w && p.1 < h
    ensures SearchOutcome(k, t, r, w, h, mapping, b, Summarize(FoldStats(BucketPoints(k, t, r, w, h, buckets[best]))))
  {
    var ps := Scanned(ScanWindow(b), w, h);
    BucketMembers(ps, mapping, best);
    ScannedInImage(ScanWindow(b), w, h);
    assert MaximalLabel(ps, mapping, best);
  }

  /** The labels of a scan are exactly the labels of its mapped pixels. */
  lemma LabelsMembers(ps: seq<Pixel>, mapping: map<Pixel, int>)
    ensures forall p :: p in ps && p in mapping ==> mapping[p] in Labels(ps, mapping)
    ensures forall c :: c in Labels(ps, mapping) ==> exists p :: p in ps && p in mapping && mapping[p] == c
  {
  }

  /** The scan finds no label exactly when no pixel of the clipped window is mapped. */
  lemma NoLabelsIff(win: Window, w: nat, h: nat, mapping: map<Pixel, int>)
    ensures Labels(Scanned(win, w, h), mapping) == {} <==>
              forall x: nat, y: nat :: win.xMin <= x <= win.xMax && x < w && win.yMin <= y <= win.yMax && y < h ==>
                (x, y) !in mapping
  {
    ScannedMembers(win, w, h);
    LabelsMembers(Scanned(win, w, h), mapping);
  }

  /**
   * Over a map whose keys carry non-zero depth, the bucket of any scanned
   * label folds one point per pixel and yields a location whose centre lies
   * within that fold's extremes.
   */
  lemma LocationOfSome(k: MatrixWithInverse, t: Transform, r: Raster, w: nat, h: nat,
                       mapping: map<Pixel, int>, b: BBox, c: int)
    requires IsRaster(r, w, h) && MappedForeground(r, w, h, mapping)
    requires c in Labels(Scanned(ScanWindow(b), w, h), mapping)
    ensures var s := BucketFold(k, t, r, w, h, mapping, b, c);
            var res := LocationOf(k, t, r, w, h, mapping, b, c);
            s.count == |Bucket(Scanned(ScanWindow(b), w, h), mapping, c)| > 0 &&
            res == Summarize(s) && res.Some? && Within(s.lo, res.value.center, s.hi)
  {
    var ps := Scanned(ScanWindow(b), w, h);
    var bucket := Bucket(ps, mapping, c);
    BucketMembers(ps, mapping, c);
    BucketNonEmpty(ps, mapping, c);
    BucketPointsAll(k, t, r, w, h, bucket);
    var points := BucketPoints(k, t, r, w, h, bucket);
    SummarizeSpec(points);
    FoldStatsCount(points);
  }

  /**
   * When the map's keys carry non-zero depth (as the cluster map of the same
   * raster does), the search finds nothing exactly when no mapped pixel lies
   * in the clipped window; otherwise it reports a location whose centre lies
   * within the extremes of its bucket's points, so its extents are non-negative.
   */
  lemma SearchNoneIff(k: MatrixWithInverse, t: Transform, r: Raster, w: nat, h: nat,
                      mapping: map<Pixel, int>, b: BBox, res: Option<RobotLocation>)
    requires IsRaster(r, w, h) && MappedForeground(r, w, h, mapping)
    requires SearchOutcome(k, t, r, w, h, mapping, b, res)
    ensures var win := ScanWindow(b);
            res.None? <==>
              forall x: nat, y: nat :: win.xMin <= x <= win.xMax && x < w && win.yMin <= y <= win.yMax && y < h ==>
                (x, y) !in mapping
    ensures res.Some? ==> res.value.width >= 0.0 && res.value.height >= 0.0 && res.value.depth >= 0.0
    ensures res.Some? ==>
              exists c :: (c in Labels(Scanned(ScanWindow(b), w, h), mapping) &&
                           MaximalLabel(Scanned(ScanWindow(b), w, h), mapping, c) &&
                           var s := BucketFold(k, t, r, w, h, mapping, b, c);
                           s.count > 0 && res == Summarize(s) && Within(s.lo, res.value.center, s.hi))
  {
    var ps := Scanned(ScanWindow(b), w, h);
    NoLabelsIff(ScanWindow(b), w, h, mapping);
    if Labels(ps, mapping) != {} {
      var c :| c in Labels(ps, mapping) && MaximalLabel(ps, mapping, c) && res == LocationOf(k, t, r, w, h, mapping, b, c);
      LocationOfSome(k, t, r, w, h, mapping, b, c);
    }
  }
}
