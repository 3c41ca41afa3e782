/**
 * The per-sensor locator: the camera intrinsic and the two transforms built
 * at construction, the background depth raster it raises in place, and the
 * queue of recent per-frame rasters it keeps between calls.
 */
module Locate {
  import opened Common
  import opened Geometry
  import opened DepthMap
  import opened Cluster
  import opened Search

  /** The contents of a depth image buffer, as a raster indexed `[x][y]`. */
  function Snapshot(a: array2<real>): (r: Raster)
    reads a
    ensures IsRaster(r, a.Length0, a.Length1)
    ensures forall x, y :: 0 <= x < a.Length0 && 0 <= y < a.Length1 ==> r[x][y] == a[x, y]
  {
    seq(a.Length0, x requires 0 <= x < a.Length0 reads a =>
      seq(a.Length1, y requires 0 <= y < a.Length1 reads a => a[x, y]))
  }

  /** Two rasters of the same size with the same pixels are equal. */
  lemma RasterEquality(a: Raster, b: Raster, w: nat, h: nat)
    requires IsRaster(a, w, h) && IsRaster(b, w, h)
    requires forall x, y :: 0 <= x < w && 0 <= y < h ==> a[x][y] == b[x][y]
    ensures a == b
  {
    forall x | 0 <= x < w
      ensures a[x] == b[x]
    {
      assert forall y :: 0 <= y < h ==> a[x][y] == b[x][y];
    }
  }

  // ------------------------------------------------------- point landing

  /** The point passes the coordinate filter: no zero coordinate, and not beyond the range limit. */
  predicate Acceptable(p: Vec3, maxValid: real) {
    p.x != 0.0 && p.y != 0.0 && p.z != 0.0 && p.x <= maxValid
  }

  /**
   * `(a / 0.0).round() as i32`: the quotient is an infinity, which the cast
   * saturates, or NaN (for `0 / 0`), which the cast sends to 0.
   */
  function ZeroDepthIndex(a: real): int {
    if a > 0.0 then I32_MAX else if a < 0.0 then I32_MIN else 0
  }

  /** The rounded pixel and the depth of a point, before the bounds check. */
  datatype Projection = Projection(u: int, v: int, depth: real)

  /**
   * `lidar_to_camera` followed by `round() as i32` on both pixel coordinates;
   * a zero camera depth divides to infinities or NaN, cast as `ZeroDepthIndex`
   * says (the sign of a zero divisor is not modelled).
   */
  function ProjectPoint(k: MatrixWithInverse, t: Transform, p: Vec3): Projection {
    match LidarToCamera(k, t, p)
    case Some(q) => Projection(SaturateI32(Round(q.x)), SaturateI32(Round(q.y)), q.z)
    case None =>
      var c := MulVec3(k.matrix, CameraFrame(t, p));
      Projection(ZeroDepthIndex(c.x), ZeroDepthIndex(c.y), c.z)
  }

  /** The projection lies in the `w` by `h` image. */
  predicate InImage(pr: Projection, w: nat, h: nat) {
    0 <= pr.u < w && 0 <= pr.v < h
  }

  /**
   * Where a lidar point lands in the per-frame raster, if it is kept: the
   * filters of `get_robot_depth_map`, the projection and the bounds check.
   */
  function Landing(k: MatrixWithInverse, t: Transform, maxValid: real, w: nat, h: nat, p: Vec3): Option<Hit> {
    if !Acceptable(p, maxValid) then None
    else
      var pr := ProjectPoint(k, t, p);
      if InImage(pr, w, h) then Some(Hit(pr.u, pr.v, pr.depth)) else None
  }

  /**
   * A point is kept only when it passes the coordinate filter and lands in
   * the image. With a non-zero camera depth it is kept exactly when its
   * rounded projection lies in the image, at that pixel and that depth; with
   * a zero camera depth it can only be the camera centre itself, written as
   * depth 0 at pixel `(0, 0)`.
   */
  lemma LandingSpec(k: MatrixWithInverse, t: Transform, maxValid: real, w: nat, h: nat, p: Vec3)
    ensures var o := Landing(k, t, maxValid, w, h, p);
            o.Some? ==> Acceptable(p, maxValid) && o.value.u < w && o.value.v < h
    ensures var o := Landing(k, t, maxValid, w, h, p);
            Acceptable(p, maxValid) && LidarToCamera(k, t, p).Some? ==>
              var q := LidarToCamera(k, t, p).value;
              var u, v := SaturateI32(Round(q.x)), SaturateI32(Round(q.y));
              (o.Some? <==> 0 <= u < w && 0 <= v < h) &&
              (o.Some? ==> o.value.u == u && o.value.v == v && o.value.depth == q.z)
    ensures var o := Landing(k, t, maxValid, w, h, p);
            w <= I32_MAX && h <= I32_MAX && LidarToCamera(k, t, p).None? && o.Some? ==>
              o.value == Hit(0, 0, 0.0) && MulVec3(k.matrix, CameraFrame(t, p)) == Vec3(0.0, 0.0, 0.0)
  {
  }

  /**
   * A kept point's pixel is its projection rounded to the nearest pixel (away
   * from the `i32` limits): within half a pixel on each axis.
   */
  lemma LandingNearProjection(k: MatrixWithInverse, t: Transform, maxValid: real, w: nat, h: nat, p: Vec3)
    requires w <= I32_MAX && h <= I32_MAX
    requires Landing(k, t, maxValid, w, h, p).Some? && LidarToCamera(k, t, p).Some?
    ensures var o, q := Landing(k, t, maxValid, w, h, p).value, LidarToCamera(k, t, p).value;
            q.x - 0.5 <= o.u as real <= q.x + 0.5 && q.y - 0.5 <= o.v as real <= q.y + 0.5
  {
    var q := LidarToCamera(k, t, p).value;
    assert 0 <= SaturateI32(Round(q.x)) < I32_MAX;
    assert 0 <= SaturateI32(Round(q.y)) < I32_MAX;
  }

  /** The landings of a frame's points, in order. */
  function Landings(k: MatrixWithInverse, t: Transform, maxValid: real, w: nat, h: nat, points: seq<Vec3>): (hs: seq<Option<Hit>>)
    ensures |hs| == |points|
    ensures forall i :: 0 <= i < |points| ==> hs[i] == Landing(k, t, maxValid, w, h, points[i])
  {
    seq(|points|, i requires 0 <= i < |points| => Landing(k, t, maxValid, w, h, points[i]))
  }

  /**
   * With an identity intrinsic and an identity lidar-to-camera transform, a
   * kept lidar point lands at `(round(x / z), round(y / z))` with depth `z`.
   */
  lemma IdentityProjection(k: MatrixWithInverse, t: Transform, p: Vec3)
    requires k.matrix == Identity3 && t.matrix == Identity4 && p.z != 0.0
    ensures LidarToCamera(k, t, p) == Some(Vec3(p.x / p.z, p.y / p.z, p.z))
  {
    IdentityCameraFrame(t, p);
    MulVecIdentity3(p);
  }

  /**
   * With identity geometry, an accepted point with a non-zero depth lands
   * exactly when its rounded pixel is in the image.
   */
  lemma IdentityLanding(k: MatrixWithInverse, t: Transform, maxValid: real, w: nat, h: nat, p: Vec3, u: int, v: int)
    requires k.matrix == Identity3 && t.matrix == Identity4 && Acceptable(p, maxValid)
    requires u == Round(p.x / p.z) && v == Round(p.y / p.z) && 0 <= u < w && 0 <= v < h && w <= I32_MAX && h <= I32_MAX
    ensures Landing(k, t, maxValid, w, h, p) == Some(Hit(u, v, p.z))
  {
    IdentityProjection(k, t, p);
    assert ProjectPoint(k, t, p) == Projection(u, v, p.z);
  }

  /** The depth-map unit test's point `(2, 3, 1)` lands at pixel `(2, 3)` with depth 1. */
  lemma UnitTestLandingNear(k: MatrixWithInverse, t: Transform)
    requires k.matrix == Identity3 && t.matrix == Identity4
    ensures Landing(k, t, 100.0, 640, 480, Vec3(2.0, 3.0, 1.0)) == Some(Hit(2, 3, 1.0))
  {
    var p := Vec3(2.0, 3.0, 1.0);
    assert p.x / p.z == 2.0 && p.y / p.z == 3.0;
    IdentityLanding(k, t, 100.0, 640, 480, p, 2, 3);
  }

  /** The depth-map unit test's point `(1, 2, 3)` lands at pixel `(0, 1)`: `1 / 3` rounds to 0, `2 / 3` to 1. */
  lemma UnitTestLandingFar(k: MatrixWithInverse, t: Transform)
    requires k.matrix == Identity3 && t.matrix == Identity4
    ensures Landing(k, t, 100.0, 640, 480, Vec3(1.0, 2.0, 3.0)) == Some(Hit(0, 1, 3.0))
  {
    var p := Vec3(1.0, 2.0, 3.0);
    assert 0.0 < p.x / p.z < 0.5;
    assert 0.5 < p.y / p.z < 1.0;
    IdentityLanding(k, t, 100.0, 640, 480, p, 0, 1);
  }

  /**
   * The depth-map unit test: a fresh 640 by 480 locator with identity
   * geometry and thresholds 0.1 and 10 is given the frames `[(2, 3, 1)]` and
   * `[(1, 2, 3), (2, 3, 1)]`; pixel `(0, 1)` of the second difference raster
   * is 3, frame 0's empty pixel measured against the background that frame 1
   * raised to 3.
   */
  lemma UnitTestDepthMap(k: MatrixWithInverse, t: Transform)
    requires k.matrix == Identity3 && t.matrix == Identity4
    ensures var h0 := Landings(k, t, 100.0, 640, 480, [Vec3(2.0, 3.0, 1.0)]);
            var h1 := Landings(k, t, 100.0, 640, 480, [Vec3(1.0, 2.0, 3.0), Vec3(2.0, 3.0, 1.0)]);
            var q := PushFrame(PushFrame([], FrameRaster(h0, 640, 480)), FrameRaster(h1, 640, 480));
            var bg := RaisedRaster(RaisedRaster(Blank(640, 480), h0, 640, 480), h1, 640, 480);
            DifferenceRaster(q, bg, 640, 480, 0.1, 10.0)[0][1] == 3.0
  {
    var near, far := Vec3(2.0, 3.0, 1.0), Vec3(1.0, 2.0, 3.0);
    UnitTestLandingNear(k, t);
    UnitTestLandingFar(k, t);
    LandingsOfFrames(k, t, 100.0, 640, 480, near, far, Some(Hit(2, 3, 1.0)), Some(Hit(0, 1, 3.0)));
    TwoFrameDifference(Landings(k, t, 100.0, 640, 480, [Vec3(2.0, 3.0, 1.0)]),
                       Landings(k, t, 100.0, 640, 480, [Vec3(1.0, 2.0, 3.0), Vec3(2.0, 3.0, 1.0)]));
  }

  /** The landings of the frames `[p]` and `[q, p]`, given the landings of `p` and `q`. */
  lemma LandingsOfFrames(k: MatrixWithInverse, t: Transform, maxValid: real, w: nat, h: nat,
                         p: Vec3, q: Vec3, hp: Option<Hit>, hq: Option<Hit>)
    requires Landing(k, t, maxValid, w, h, p) == hp && Landing(k, t, maxValid, w, h, q) == hq
    ensures Landings(k, t, maxValid, w, h, [p]) == [hp]
    ensures Landings(k, t, maxValid, w, h, [q, p]) == [hq, hp]
  {
  }

  /** The difference value at `(x, y)` after visiting the first `n` queued rasters. */
  function DifferenceAfter(q: seq<Raster>, bg: Raster, w: nat, h: nat, lo: real, hi: real, n: nat, x: nat, y: nat): real
    requires AllRasters(q, w, h) && IsRaster(bg, w, h) && n <= |q| && x < w && y < h
  {
    NewestPassing(PixelHistory(q[..n], w, h, x, y), bg[x][y], lo, hi)
  }

  /** Visiting raster `n` overwrites the pixel with its distance when that passes the thresholds. */
  lemma DifferenceStep(q: seq<Raster>, bg: Raster, w: nat, h: nat, lo: real, hi: real, n: nat, x: nat, y: nat)
    requires AllRasters(q, w, h) && IsRaster(bg, w, h) && n < |q| && x < w && y < h
    ensures DifferenceAfter(q, bg, w, h, lo, hi, n + 1, x, y) ==
              if Passes(q[n][x][y], bg[x][y], lo, hi) then Abs(q[n][x][y] - bg[x][y])
              else DifferenceAfter(q, bg, w, h, lo, hi, n, x, y)
  {
    var vs := PixelHistory(q[..n + 1], w, h, x, y);
    assert vs[..n] == PixelHistory(q[..n], w, h, x, y);
  }

  /** `ImageBuffer::new(w, h)`: a fresh buffer, 0 at every pixel. */
  method NewImage(w: nat, h: nat) returns (a: array2<real>)
    ensures fresh(a) && a.Length0 == w && a.Length1 == h
    ensures Snapshot(a) == Blank(w, h)
  {
    a := new real[w, h]((x, y) => 0.0);
    RasterEquality(Snapshot(a), Blank(w, h), w, h);
  }

  // ------------------------------------------------------------- locator

  class Locator {
    const width: nat
    const height: nat
    const cameraIntrinsic: MatrixWithInverse
    const lidarToCamera: Transform
    const worldToCamera: Transform
    const clusterEpsilon: real
    const clusterMinPoints: nat
    const minDistanceToBackground: real
    const maxDistanceToBackground: real
    const maxValidDistance: real
    /** The per-pixel running maximum of every accepted depth. */
    const background: array2<real>
    /** The queued per-frame rasters, oldest first. */
    var depthMapQueue: seq<Raster>
    /** Every per-frame raster produced so far, oldest first. */
    ghost var history: seq<Raster>

    /** The raster sizes agree with the image, and the queue holds the last three frames. */
    ghost predicate Valid()
      reads this, background
    {
      && background.Length0 == width && background.Length1 == height
      && AllRasters(history, width, height)
      && depthMapQueue == Recent(history)
    }

    /** The intrinsic and the transforms are the ones construction validated. */
    ghost predicate GeometryValid() {
      && IsInverse3(cameraIntrinsic.matrix, cameraIntrinsic.matrixInverse)
      && ValidTransform(lidarToCamera) && ValidTransform(worldToCamera)
    }

    /**
     * With the geometry construction validated, unprojecting the projection
     * of a lidar point with a non-zero camera depth gives the point back.
     */
    lemma CameraRoundTrip(p: Vec3)
      requires GeometryValid() && LidarToCamera(cameraIntrinsic, lidarToCamera, p).Some?
      ensures CameraToLidar(cameraIntrinsic, lidarToCamera, LidarToCamera(cameraIntrinsic, lidarToCamera, p).value) == p
    {
      RoundTrip(cameraIntrinsic, lidarToCamera, p);
    }

    /** The landings of a frame's points on this locator's image. */
    function Hits(points: seq<Vec3>): seq<Option<Hit>> {
      Landings(cameraIntrinsic, lidarToCamera, maxValidDistance, width, height, points)
    }

    /** A locator over validated geometry, with a zero background and an empty queue. */
    constructor (w: nat, h: nat, intrinsic: MatrixWithInverse, l2c: Transform, w2c: Transform,
                 eps: real, minPoints: nat, minDistance: real, maxDistance: real, maxValid: real)
      requires IsInverse3(intrinsic.matrix, intrinsic.matrixInverse)
      requires ValidTransform(l2c) && ValidTransform(w2c)
      ensures Valid() && GeometryValid() && fresh(background)
      ensures width == w && height == h
      ensures cameraIntrinsic == intrinsic && lidarToCamera == l2c && worldToCamera == w2c
      ensures clusterEpsilon == eps && clusterMinPoints == minPoints
      ensures minDistanceToBackground == minDistance && maxDistanceToBackground == maxDistance
      ensures maxValidDistance == maxValid
      ensures Snapshot(background) == Blank(w, h)
      ensures depthMapQueue == [] && history == []
    {
      var blank := NewImage(w, h);
      width, height := w, h;
      cameraIntrinsic, lidarToCamera, worldToCamera := intrinsic, l2c, w2c;
      clusterEpsilon, clusterMinPoints := eps, minPoints;
      minDistanceToBackground, maxDistanceToBackground := minDistance, maxDistance;
      maxValidDistance := maxValid;
      background := blank;
      depthMapQueue, history := [], [];
    }

    /**
     * `Locator::new`: fails with the first matrix that cannot be inverted, in
     * the order intrinsic, lidar-to-camera, world-to-camera.
     */
    static method New(w: nat, h: nat, intrinsic: Mat3, l2c: Mat4, w2c: Mat4,
                      eps: real, minPoints: nat, minDistance: real, maxDistance: real, maxValid: real)
      returns (r: Result<Locator, GeometryError>)
      ensures Det3(intrinsic) == 0.0 ==> r == Failure(MatrixNotInvertible(intrinsic))
      ensures Det3(intrinsic) != 0.0 && TransformTryFrom(l2c).Failure? ==> r == Failure(TransformTryFrom(l2c).error)
      ensures Det3(intrinsic) != 0.0 && TransformTryFrom(l2c).Success? && TransformTryFrom(w2c).Failure? ==>
                r == Failure(TransformTryFrom(w2c).error)
      ensures r.Success? <==> Det3(intrinsic) != 0.0 && TransformTryFrom(l2c).Success? && TransformTryFrom(w2c).Success?
      ensures r.Success? <==> Det3(intrinsic) != 0.0 && Det4(l2c) != 0.0 && Det3(TopLeft(l2c)) != 0.0 &&
                                Det4(w2c) != 0.0 && Det3(TopLeft(w2c)) != 0.0
      ensures r.Success? ==>
                var loc := r.value;
                fresh(loc) && fresh(loc.background) && loc.Valid() && loc.GeometryValid() &&
                loc.width == w && loc.height == h &&
                loc.cameraIntrinsic.matrix == intrinsic && loc.lidarToCamera.matrix == l2c && loc.worldToCamera.matrix == w2c &&
                loc.clusterEpsilon == eps && loc.clusterMinPoints == minPoints &&
                loc.minDistanceToBackground == minDistance && loc.maxDistanceToBackground == maxDistance &&
                loc.maxValidDistance == maxValid &&
                Snapshot(loc.background) == Blank(w, h) && loc.depthMapQueue == [] && loc.history == []
    {
      var k := MatrixWithInverseTryFrom(intrinsic);
      if k.Failure? {
        return Failure(k.error);
      }
      var t := TransformTryFrom(l2c);
      if t.Failure? {
        return Failure(t.error);
      }
      var u := TransformTryFrom(w2c);
      if u.Failure? {
        return Failure(u.error);
      }
      var loc := new Locator(w, h, k.value, t.value, u.value, eps, minPoints, minDistance, maxDistance, maxValid);
      return Success(loc);
    }

    /**
     * One iteration of the point loop of `get_robot_depth_map`: a kept point
     * overwrites its pixel of the frame raster and raises the background
     * there; nothing else changes.
     */
    method DrawPoint(depthMap: array2<real>, p: Vec3) returns (o: Option<Hit>)
      requires Valid() && depthMap != background
      requires depthMap.Length0 == width && depthMap.Length1 == height
      modifies depthMap, background
      ensures Valid()
      ensures o == Landing(cameraIntrinsic, lidarToCamera, maxValidDistance, width, height, p)
      ensures forall x, y :: 0 <= x < width && 0 <= y < height ==>
                depthMap[x, y] == if LandsAt(o, x, y) then o.value.depth else old(depthMap[x, y])
      ensures forall x, y :: 0 <= x < width && 0 <= y < height ==>
                background[x, y] == if LandsAt(o, x, y) && o.value.depth > old(background[x, y]) then o.value.depth
                                    else old(background[x, y])
    {
      o := None;
      if p.x != 0.0 && p.y != 0.0 && p.z != 0.0 && p.x <= maxValidDistance {
        var pr := ProjectPoint(cameraIntrinsic, lidarToCamera, p);
        var u, v, depth := pr.u, pr.v, pr.depth;
        if 0 <= u < width && 0 <= v < height {
          depthMap[u, v] := depth;
          if depth > background[u, v] {
            background[u, v] := depth;
          }
          o := Some(Hit(u, v, depth));
        }
      }
    }

    /** The point loop of `get_robot_depth_map`: the frame raster, and the background raised in place. */
    method DrawFrame(points: seq<Vec3>) returns (depthMap: array2<real>)
      requires Valid()
      modifies background
      ensures Valid()
      ensures fresh(depthMap) && depthMap.Length0 == width && depthMap.Length1 == height
      ensures Snapshot(depthMap) == FrameRaster(Hits(points), width, height)
      ensures Snapshot(background) == RaisedRaster(old(Snapshot(background)), Hits(points), width, height)
    {
      depthMap := NewImage(width, height);
      ghost var hits: seq<Option<Hit>> := [];
      for i := 0 to |points|
        invariant Valid()
        invariant hits == Hits(points)[..i]
        invariant forall x, y :: 0 <= x < width && 0 <= y < height ==> depthMap[x, y] == FrameDepth(hits, x, y)
        invariant forall x, y :: 0 <= x < width && 0 <= y < height ==>
                    background[x, y] == RaisedBackground(old(background[x, y]), hits, x, y)
      {
        var o := DrawPoint(depthMap, points[i]);
        assert Hits(points)[..i + 1] == hits + [o];
        assert (hits + [o])[..i] == hits;
        hits := hits + [o];
      }
      assert hits == Hits(points);
      RasterEquality(Snapshot(depthMap), FrameRaster(hits, width, height), width, height);
      RasterEquality(Snapshot(background), RaisedRaster(old(Snapshot(background)), hits, width, height), width, height);
    }

    /**
     * The difference loop of `get_robot_depth_map`: every queued raster in
     * turn, oldest first, overwrites each pixel whose distance to the
     * background passes the thresholds.
     */
    method DifferenceMap() returns (diff: array2<real>)
      requires Valid()
      ensures fresh(diff) && diff.Length0 == width && diff.Length1 == height
      ensures Snapshot(diff) == DifferenceRaster(depthMapQueue, Snapshot(background), width, height,
                                                 minDistanceToBackground, maxDistanceToBackground)
    {
      diff := NewImage(width, height);
      ghost var bg := Snapshot(background);
      ghost var lo, hi := minDistanceToBackground, maxDistanceToBackground;
      for n := 0 to |depthMapQueue|
        invariant forall x, y :: 0 <= x < width && 0 <= y < height ==>
                    diff[x, y] == DifferenceAfter(depthMapQueue, bg, width, height, lo, hi, n, x, y)
      {
        ApplyRaster(diff, n);
      }
      assert depthMapQueue[..|depthMapQueue|] == depthMapQueue;
      RasterEquality(Snapshot(diff), DifferenceRaster(depthMapQueue, bg, width, height, lo, hi), width, height);
    }

    /** One queued raster of the difference loop, over every pixel. */
    method ApplyRaster(diff: array2<real>, n: nat)
      requires Valid() && diff != background && diff.Length0 == width && diff.Length1 == height
      requires n < |depthMapQueue|
      requires forall x, y :: 0 <= x < width && 0 <= y < height ==>
                 diff[x, y] == DifferenceAfter(depthMapQueue, Snapshot(background), width, height,
                                               minDistanceToBackground, maxDistanceToBackground, n, x, y)
      modifies diff
      ensures forall x, y :: 0 <= x < width && 0 <= y < height ==>
                diff[x, y] == DifferenceAfter(depthMapQueue, Snapshot(background), width, height,
                                              minDistanceToBackground, maxDistanceToBackground, n + 1, x, y)
    {
      ghost var bg := Snapshot(background);
      ghost var lo, hi := minDistanceToBackground, maxDistanceToBackground;
      for x := 0 to width
        invariant forall x', y :: 0 <= x' < width && 0 <= y < height ==>
                    diff[x', y] == DifferenceAfter(depthMapQueue, bg, width, height, lo, hi, if x' < x then n + 1 else n, x', y)
      {
        ApplyColumn(diff, n, x);
      }
    }

    /** Column `x` of one queued raster: each pixel whose distance passes the thresholds is overwritten. */
    method ApplyColumn(diff: array2<real>, n: nat, x: nat)
      requires Valid() && diff != background && diff.Length0 == width && diff.Length1 == height
      requires n < |depthMapQueue| && x < width
      requires forall x', y :: 0 <= x' < width && 0 <= y < height ==>
                 diff[x', y] == DifferenceAfter(depthMapQueue, Snapshot(background), width, height,
                                                minDistanceToBackground, maxDistanceToBackground,
                                                if x' < x then n + 1 else n, x', y)
      modifies diff
      ensures forall x', y :: 0 <= x' < width && 0 <= y < height ==>
                diff[x', y] == DifferenceAfter(depthMapQueue, Snapshot(background), width, height,
                                               minDistanceToBackground, maxDistanceToBackground,
                                               if x' <= x then n + 1 else n, x', y)
    {
      ghost var bg := Snapshot(background);
      var lo, hi := minDistanceToBackground, maxDistanceToBackground;
      var raster := depthMapQueue[n];
      for y := 0 to height
        invariant forall x', y' :: 0 <= x' < width && 0 <= y' < height ==>
                    diff[x', y'] == DifferenceAfter(depthMapQueue, bg, width, height, lo, hi,
                                                    if x' < x || (x' == x && y' < y) then n + 1 else n, x', y')
      {
        DifferenceStep(depthMapQueue, bg, width, height, lo, hi, n, x, y);
        var difference := Abs(raster[x][y] - background[x, y]);
        if difference > lo && difference < hi {
          diff[x, y] := difference;
        }
      }
    }

    /**
     * `get_robot_depth_map`: write this frame's points into a fresh raster
     * (last writer wins), raise the background, queue the raster (dropping the
     * oldest beyond three), and return the thresholded difference of every
     * queued raster against the new background.
     */
    method GetRobotDepthMap(points: seq<Vec3>) returns (diff: array2<real>)
      requires Valid()
      modifies this, background
      ensures Valid()
      ensures fresh(diff) && diff.Length0 == width && diff.Length1 == height
      ensures history == old(history) + [FrameRaster(Hits(points), width, height)]
      ensures depthMapQueue == PushFrame(old(depthMapQueue), FrameRaster(Hits(points), width, height))
      ensures Snapshot(background) == RaisedRaster(old(Snapshot(background)), Hits(points), width, height)
      ensures Snapshot(diff) == DifferenceRaster(depthMapQueue, Snapshot(background), width, height,
                                                 minDistanceToBackground, maxDistanceToBackground)
    {
      var frame := DrawFrame(points);
      EnqueueFrame(Snapshot(frame));
      diff := DifferenceMap();
    }

    /** `push_back` of the frame raster, then `pop_front` while the queue holds more than three. */
    method EnqueueFrame(r: Raster)
      requires Valid() && IsRaster(r, width, height)
      modifies this
      ensures Valid()
      ensures history == old(history) + [r]
      ensures depthMapQueue == PushFrame(old(depthMapQueue), r)
    {
      depthMapQueue := depthMapQueue + [r];
      if |depthMapQueue| > DepthMapQueueSize {
        depthMapQueue := depthMapQueue[1..];
      }
      RecentPush(history, r);
      history := history + [r];
    }

    /**
     * `cluster_and_get_category`: collect the non-zero pixels of the
     * difference raster, unproject them, label the points with `dbscan`, and
     * zip the labels back onto the pixels.
     */
    method ClusterAndGetCategory(diff: array2<real>, dbscan: (seq<Vec3>, real, nat) -> seq<int>)
      returns (mapping: map<Pixel, int>)
      ensures var r, w, h := Snapshot(diff), diff.Length0, diff.Length1;
              mapping == CategoryMap(r, w, h, dbscan(UnprojectAll(cameraIntrinsic, lidarToCamera, ForegroundPixels(r, w, h)),
                                                     clusterEpsilon, clusterMinPoints))
      ensures forall p :: p in mapping ==> p.0 < diff.Length0 && p.1 < diff.Length1 && diff[p.0, p.1] != 0.0
    {
      var w, h := diff.Length0, diff.Length1;
      ghost var r := Snapshot(diff);
      var cameraPoints: seq<CameraPoint> := [];
      for y := 0 to h
        invariant cameraPoints == ForegroundRows(r, w, h, y)
      {
        for x := 0 to w
          invariant cameraPoints == ForegroundRows(r, w, h, y) + ForegroundRow(r, w, h, y, x)
        {
          var depth := diff[x, y];
          if depth != 0.0 {
            cameraPoints := cameraPoints + [CameraPoint(x, y, depth)];
          }
        }
      }
      var lidarPoints: seq<Vec3> := [];
      for i := 0 to |cameraPoints|
        invariant |lidarPoints| == i
        invariant forall j :: 0 <= j < i ==> lidarPoints[j] == Unproject(cameraIntrinsic, lidarToCamera, cameraPoints[j])
      {
        lidarPoints := lidarPoints + [Unproject(cameraIntrinsic, lidarToCamera, cameraPoints[i])];
      }
      assert lidarPoints == UnprojectAll(cameraIntrinsic, lidarToCamera, cameraPoints);
      var categories := dbscan(lidarPoints, clusterEpsilon, clusterMinPoints);
      mapping := map[];
      for i := 0 to Shorter(|cameraPoints|, |categories|)
        invariant mapping == ZipInsert(cameraPoints, categories, i)
      {
        mapping := mapping[PixelOf(cameraPoints[i]) := categories[i]];
      }
      CategoryMapDomain(r, w, h, categories);
    }

    /** The statistics fold of `search_for_location` over one bucket. */
    method FoldBucket(diff: array2<real>, pixels: seq<Pixel>) returns (acc: Stats)
      requires forall p :: p in pixels ==> p.0 < diff.Length0 && p.1 < diff.Length1
      ensures acc == FoldStats(BucketPoints(cameraIntrinsic, lidarToCamera, Snapshot(diff), diff.Length0, diff.Length1, pixels))
    {
      ghost var r := Snapshot(diff);
      acc := Seed;
      for i := 0 to |pixels|
        invariant acc == FoldStats(BucketPoints(cameraIntrinsic, lidarToCamera, r, diff.Length0, diff.Length1, pixels[..i]))
      {
        var (px, py) := pixels[i];
        var depth := diff[px, py];
        assert pixels[..i + 1][..i] == pixels[..i];
        if depth != 0.0 {
          acc := Accumulate(acc, Unproject(cameraIntrinsic, lidarToCamera, CameraPoint(px, py, depth)));
        }
      }
      assert pixels[..|pixels|] == pixels;
    }

    /**
     * One box of `search_for_location`: bucket the mapped pixels of the
     * clipped window by label, take a largest bucket, and fold the lidar
     * points of its non-zero pixels into a location.
     */
    method SearchOne(b: BBox, diff: array2<real>, mapping: map<Pixel, int>) returns (res: Option<RobotLocation>)
      ensures SearchOutcome(cameraIntrinsic, lidarToCamera, Snapshot(diff), diff.Length0, diff.Length1, mapping, b, res)
    {
      var w, h := diff.Length0, diff.Length1;
      var win := ScanWindow(b);
      var buckets, order := ScanBuckets(win, w, h, mapping);
      ghost var seen := Scanned(win, w, h);
      var found, best := PickLargest(buckets, order);
      if !found {
        EmptyOutcome(cameraIntrinsic, lidarToCamera, Snapshot(diff), w, h, mapping, b, buckets, order);
        return None;
      }
      PickedOutcome(cameraIntrinsic, lidarToCamera, Snapshot(diff), w, h, mapping, b, buckets, order, best);
      var acc := FoldBucket(diff, buckets[best]);
      if acc.count > 0 {
        var n := acc.count as real;
        res := Some(RobotLocation(Vec3(acc.sum.x / n, acc.sum.y / n, acc.sum.z / n),
                                  acc.hi.x - acc.lo.x, acc.hi.y - acc.lo.y, acc.hi.z - acc.lo.z));
      } else {
        res := None;
      }
      assert res == Summarize(acc);
    }

    /** `search_for_location`: one outcome per box, in the boxes' order. */
    method SearchForLocation(bboxes: seq<BBox>, diff: array2<real>, mapping: map<Pixel, int>)
      returns (rs: seq<Option<RobotLocation>>)
      ensures |rs| == |bboxes|
      ensures forall i :: 0 <= i < |bboxes| ==>
                SearchOutcome(cameraIntrinsic, lidarToCamera, Snapshot(diff), diff.Length0, diff.Length1, mapping, bboxes[i], rs[i])
    {
      rs := [];
      for i := 0 to |bboxes|
        invariant |rs| == i
        invariant forall j :: 0 <= j < i ==>
                    SearchOutcome(cameraIntrinsic, lidarToCamera, Snapshot(diff), diff.Length0, diff.Length1, mapping, bboxes[j], rs[j])
      {
        var res := SearchOne(bboxes[i], diff, mapping);
        rs := rs + [res];
      }
    }

    /**
     * `locate_detections`: update the depth rasters with this frame's points,
     * cluster the difference raster, and search every detection's box in
     * order against the clustered pixels.
     */
    method LocateDetections<L>(points: seq<Vec3>, detections: seq<Detection<L>>,
                               dbscan: (seq<Vec3>, real, nat) -> seq<int>)
      returns (rs: seq<Option<RobotLocation>>)
      requires Valid()
      modifies this, background
      ensures Valid()
      ensures history == old(history) + [FrameRaster(Hits(points), width, height)]
      ensures depthMapQueue == PushFrame(old(depthMapQueue), FrameRaster(Hits(points), width, height))
      ensures Snapshot(background) == RaisedRaster(old(Snapshot(background)), Hits(points), width, height)
      ensures |rs| == |detections|
      ensures var r := DifferenceRaster(depthMapQueue, Snapshot(background), width, height,
                                        minDistanceToBackground, maxDistanceToBackground);
              var labels := dbscan(UnprojectAll(cameraIntrinsic, lidarToCamera, ForegroundPixels(r, width, height)),
                                   clusterEpsilon, clusterMinPoints);
              forall i :: 0 <= i < |detections| ==>
                SearchOutcome(cameraIntrinsic, lidarToCamera, r, width, height, CategoryMap(r, width, height, labels),
                              detections[i].bbox, rs[i])
      ensures old(depthMapQueue) == [] && old(Snapshot(background)) == Blank(width, height) &&
              (forall i :: 0 <= i < |points| ==> Hits(points)[i].None?) ==>
                forall i :: 0 <= i < |rs| ==> rs[i].None?
    {
      ghost var fresh0 := depthMapQueue == [] && Snapshot(background) == Blank(width, height);
      var diff := GetRobotDepthMap(points);
      var mapping := ClusterAndGetCategory(diff, dbscan);
      var bboxes := seq(|detections|, i requires 0 <= i < |detections| => detections[i].bbox);
      rs := SearchForLocation(bboxes, diff, mapping);
      if fresh0 && forall i :: 0 <= i < |points| ==> Hits(points)[i].None? {
        var labels := dbscan(UnprojectAll(cameraIntrinsic, lidarToCamera, ForegroundPixels(Snapshot(diff), width, height)),
                             clusterEpsilon, clusterMinPoints);
        forall i | 0 <= i < |rs|
          ensures rs[i].None?
        {
          FreshEmptyFrameNone(cameraIntrinsic, lidarToCamera, maxValidDistance, width, height,
                              minDistanceToBackground, maxDistanceToBackground, points, labels, bboxes[i], rs[i]);
        }
      }
    }
  }

  /**
   * `Locator::new` with the depth-map unit test's parameters, for matrices
   * that pass every determinant check of construction.
   */
  method UnitTestLocator(m3: Mat3, m4: Mat4) returns (loc: Locator)
    requires Det3(m3) == 1.0 && Det4(m4) == 1.0 && Det3(TopLeft(m4)) == 1.0
    ensures fresh(loc) && fresh(loc.background) && loc.Valid()
    ensures loc.width == 640 && loc.height == 480 && loc.maxValidDistance == 100.0
    ensures loc.cameraIntrinsic.matrix == m3 && loc.lidarToCamera.matrix == m4
    ensures loc.minDistanceToBackground == 0.1 && loc.maxDistanceToBackground == 10.0
    ensures loc.depthMapQueue == [] && Snapshot(loc.background) == Blank(640, 480)
  {
    var r := Locator.New(640, 480, m3, m4, m4, 0.5, 10, 0.1, 10.0, 100.0);
    loc := r.value;
  }

  /** One `get_robot_depth_map` call of the unit test, reading pixel `(0, 1)` of the result. */
  method UnitTestFrame(loc: Locator, points: seq<Vec3>) returns (pixel: real)
    requires loc.Valid() && 0 < loc.width && 1 < loc.height
    modifies loc, loc.background
    ensures loc.Valid()
    ensures loc.depthMapQueue == PushFrame(old(loc.depthMapQueue), FrameRaster(loc.Hits(points), loc.width, loc.height))
    ensures Snapshot(loc.background) == RaisedRaster(old(Snapshot(loc.background)), loc.Hits(points), loc.width, loc.height)
    ensures pixel == DifferenceRaster(loc.depthMapQueue, Snapshot(loc.background), loc.width, loc.height,
                                      loc.minDistanceToBackground, loc.maxDistanceToBackground)[0][1]
  {
    var diff := loc.GetRobotDepthMap(points);
    pixel := diff[0, 1];
  }

  /**
   * `test_get_robot_depth_map` run on the locator itself: construction
   * accepts the identity matrices, and after the frames `[(2, 3, 1)]` and
   * `[(1, 2, 3), (2, 3, 1)]` pixel `(0, 1)` of the difference buffer is 3.
   */
  method UnitTestGetRobotDepthMap() returns (pixel: real)
    ensures pixel == 3.0
  {
    var loc := UnitTestIdentityLocator();
    pixel := UnitTestFrames(loc);
  }

  /** The unit test's locator: `Locator::new` accepts the identity intrinsic and transforms. */
  method UnitTestIdentityLocator() returns (loc: Locator)
    ensures fresh(loc) && fresh(loc.background) && loc.Valid()
    ensures loc.width == 640 && loc.height == 480 && loc.maxValidDistance == 100.0
    ensures loc.cameraIntrinsic.matrix == Identity3 && loc.lidarToCamera.matrix == Identity4
    ensures loc.minDistanceToBackground == 0.1 && loc.maxDistanceToBackground == 10.0
    ensures loc.depthMapQueue == [] && Snapshot(loc.background) == Blank(640, 480)
  {
    IdentityInvertible();
    loc := UnitTestLocator(Identity3, Identity4);
  }

  /** The unit test's two frames on a fresh locator with identity geometry. */
  method UnitTestFrames(loc: Locator) returns (pixel: real)
    requires loc.Valid() && loc.width == 640 && loc.height == 480 && loc.maxValidDistance == 100.0
    requires loc.cameraIntrinsic.matrix == Identity3 && loc.lidarToCamera.matrix == Identity4
    requires loc.minDistanceToBackground == 0.1 && loc.maxDistanceToBackground == 10.0
    requires loc.depthMapQueue == [] && Snapshot(loc.background) == Blank(640, 480)
    modifies loc, loc.background
    ensures pixel == 3.0
  {
    var _ := UnitTestFrame(loc, [Vec3(2.0, 3.0, 1.0)]);
    pixel := UnitTestFrame(loc, [Vec3(1.0, 2.0, 3.0), Vec3(2.0, 3.0, 1.0)]);
    UnitTestDepthMap(loc.cameraIntrinsic, loc.lidarToCamera);
  }

  /**
   * With one label per clustered point, a box finds nothing exactly when no
   * non-zero pixel of the difference raster lies in its clipped window; any
   * location found has non-negative extents.
   */
  lemma ClusteredSearchNoneIff(k: MatrixWithInverse, t: Transform, r: Raster, w: nat, h: nat,
                               labels: seq<int>, b: BBox, res: Option<RobotLocation>)
    requires IsRaster(r, w, h) && |labels| == |ForegroundPixels(r, w, h)|
    requires SearchOutcome(k, t, r, w, h, CategoryMap(r, w, h, labels), b, res)
    ensures var win := ScanWindow(b);
            res.None? <==>
              forall x: nat, y: nat :: win.xMin <= x <= win.xMax && x < w && win.yMin <= y <= win.yMax && y < h ==>
                !Foreground(r[x][y])
    ensures res.Some? ==> res.value.width >= 0.0 && res.value.height >= 0.0 && res.value.depth >= 0.0
  {
    CategoryMapDomain(r, w, h, labels);
    SearchNoneIff(k, t, r, w, h, CategoryMap(r, w, h, labels), b, res);
  }

  /**
   * Empty input on a fresh locator: when no point of the first frame lands
   * (no points, or every one of them rejected), every pixel of the difference
   * raster is 0, so nothing is clustered and every box finds nothing,
   * whatever labels the clusterer returns.
   */
  lemma FreshEmptyFrameNone(k: MatrixWithInverse, t: Transform, maxValid: real, w: nat, h: nat, lo: real, hi: real,
                            points: seq<Vec3>, labels: seq<int>, b: BBox, res: Option<RobotLocation>)
    requires forall i :: 0 <= i < |points| ==> Landing(k, t, maxValid, w, h, points[i]).None?
    requires var hs := Landings(k, t, maxValid, w, h, points);
             var r := DifferenceRaster(PushFrame([], FrameRaster(hs, w, h)), RaisedRaster(Blank(w, h), hs, w, h), w, h, lo, hi);
             SearchOutcome(k, t, r, w, h, CategoryMap(r, w, h, labels), b, res)
    ensures res.None?
  {
    var hs := Landings(k, t, maxValid, w, h, points);
    var r := DifferenceRaster(PushFrame([], FrameRaster(hs, w, h)), RaisedRaster(Blank(w, h), hs, w, h), w, h, lo, hi);
    forall x: nat, y: nat | x < w && y < h
      ensures r[x][y] == 0.0
    {
      FirstFrameQuiet(hs, w, h, lo, hi, x, y);
    }
    CategoryMapDomain(r, w, h, labels);
    SearchNoneIff(k, t, r, w, h, CategoryMap(r, w, h, labels), b, res);
  }

  /**
   * Empty input on a warmed-up locator does find something: with identity
   * geometry, frame 0's point `(5, 5, 5)` lands at `(1, 1)` with depth 5; after
   * an empty frame 1 the difference there is 5, so with one label per
   * clustered point a box around `(1, 1)` finds a location.
   */
  lemma WarmedUpEmptyFrameSome(k: MatrixWithInverse, t: Transform, w: nat, h: nat,
                               labels: seq<int>, res: Option<RobotLocation>)
    requires k.matrix == Identity3 && t.matrix == Identity4
    requires 1 < w <= I32_MAX && 1 < h <= I32_MAX
    requires var h0 := Landings(k, t, 100.0, w, h, [Vec3(5.0, 5.0, 5.0)]);
             var h1 := Landings(k, t, 100.0, w, h, []);
             var q := PushFrame(PushFrame([], FrameRaster(h0, w, h)), FrameRaster(h1, w, h));
             var r := DifferenceRaster(q, RaisedRaster(RaisedRaster(Blank(w, h), h0, w, h), h1, w, h), w, h, 0.1, 10.0);
             |labels| == |ForegroundPixels(r, w, h)| &&
             SearchOutcome(k, t, r, w, h, CategoryMap(r, w, h, labels), BBox(1.0, 1.0, 2.0, 2.0), res)
    ensures res.Some?
  {
    WarmedUpLandings(k, t, w, h);
    WarmedUpSearch(k, t, Landings(k, t, 100.0, w, h, [Vec3(5.0, 5.0, 5.0)]), Landings(k, t, 100.0, w, h, []),
                   w, h, labels, res);
  }

  /** With identity geometry the point `(5, 5, 5)` lands at `(1, 1)` with depth 5. */
  lemma WarmedUpLandings(k: MatrixWithInverse, t: Transform, w: nat, h: nat)
    requires k.matrix == Identity3 && t.matrix == Identity4
    requires 1 < w <= I32_MAX && 1 < h <= I32_MAX
    ensures Landings(k, t, 100.0, w, h, [Vec3(5.0, 5.0, 5.0)]) == [Some(Hit(1, 1, 5.0))]
    ensures Landings(k, t, 100.0, w, h, []) == []
  {
    var p := Vec3(5.0, 5.0, 5.0);
    assert p.x / p.z == 1.0 && p.y / p.z == 1.0;
    IdentityLanding(k, t, 100.0, w, h, p, 1, 1);
    LandingsOfFrames(k, t, 100.0, w, h, p, p, Some(Hit(1, 1, 5.0)), Some(Hit(1, 1, 5.0)));
  }

  /** With one label per clustered point, the box around `(1, 1)` finds a location when that pixel is non-zero. */
  lemma UnitBoxSearchSome(k: MatrixWithInverse, t: Transform, r: Raster, w: nat, h: nat,
                          labels: seq<int>, res: Option<RobotLocation>)
    requires IsRaster(r, w, h) && 1 < w && 1 < h && r[1][1] != 0.0
    requires |labels| == |ForegroundPixels(r, w, h)|
    requires SearchOutcome(k, t, r, w, h, CategoryMap(r, w, h, labels), BBox(1.0, 1.0, 2.0, 2.0), res)
    ensures res.Some?
  {
    UnitBoxWindow();
    ClusteredSearchNoneIff(k, t, r, w, h, labels, BBox(1.0, 1.0, 2.0, 2.0), res);
  }

  /** The search half of `WarmedUpEmptyFrameSome`, stated on the frames' landings. */
  lemma WarmedUpSearch(k: MatrixWithInverse, t: Transform, h0: seq<Option<Hit>>, h1: seq<Option<Hit>>, w: nat, h: nat,
                       labels: seq<int>, res: Option<RobotLocation>)
    requires h0 == [Some(Hit(1, 1, 5.0))] && h1 == [] && 1 < w && 1 < h
    requires var q := PushFrame(PushFrame([], FrameRaster(h0, w, h)), FrameRaster(h1, w, h));
             var r := DifferenceRaster(q, RaisedRaster(RaisedRaster(Blank(w, h), h0, w, h), h1, w, h), w, h, 0.1, 10.0);
             |labels| == |ForegroundPixels(r, w, h)| &&
             SearchOutcome(k, t, r, w, h, CategoryMap(r, w, h, labels), BBox(1.0, 1.0, 2.0, 2.0), res)
    ensures res.Some?
  {
    var q := PushFrame(PushFrame([], FrameRaster(h0, w, h)), FrameRaster(h1, w, h));
    var r := DifferenceRaster(q, RaisedRaster(RaisedRaster(Blank(w, h), h0, w, h), h1, w, h), w, h, 0.1, 10.0);
    assert r[1][1] == 5.0 by {
      WarmedUpDifference(h0, h1, w, h, 0.1, 10.0);
    }
    UnitBoxSearchSome(k, t, r, w, h, labels, res);
  }

  /** The box centred on `(1, 1)` with extents 2 scans pixels `0..=2` on both axes. */
  lemma UnitBoxWindow()
    ensures ScanWindow(BBox(1.0, 1.0, 2.0, 2.0)) == Window(0, 2, 0, 2)
  {
  }

  /**
   * The inner `for x` loop of the window scan over row `y`: push every mapped
   * pixel of the row onto its label's bucket, stopping at the image edge.
   */
  method ScanRowInto(win: Window, w: nat, y: nat, mapping: map<Pixel, int>,
                     buckets0: map<int, seq<Pixel>>, order0: seq<int>, ghost seen0: seq<Pixel>)
    returns (buckets: map<int, seq<Pixel>>, order: seq<int>)
    requires IsBucketing(buckets0, order0, seen0, mapping)
    ensures IsBucketing(buckets, order, seen0 + ScanRow(y, win.xMin, ScanEnd(win.xMax, w)), mapping)
  {
    buckets, order := buckets0, order0;
    ghost var seen := seen0;
    var x := win.xMin;
    while x <= win.xMax
      invariant win.xMin <= x && (x == win.xMin || x <= w) && (x <= win.xMax + 1 || x == win.xMin)
      invariant seen == seen0 + ScanRow(y, win.xMin, x)
      invariant IsBucketing(buckets, order, seen, mapping)
      decreases win.xMax + 1 - x
    {
      if x >= w {
        break;
      }
      BucketingPush(buckets, order, seen, mapping, (x, y));
      if (x, y) in mapping {
        var c := mapping[(x, y)];
        if c in buckets {
          buckets := buckets[c := buckets[c] + [(x, y)]];
        } else {
          buckets := buckets[c := [(x, y)]];
          order := order + [c];
        }
      }
      seen := seen + [(x, y)];
      x := x + 1;
    }
    ScanStop(win.xMin, win.xMax, w, x);
  }

  /** The nested window scan of `search_for_location`: the label buckets of every scanned pixel. */
  method ScanBuckets(win: Window, w: nat, h: nat, mapping: map<Pixel, int>)
    returns (buckets: map<int, seq<Pixel>>, order: seq<int>)
    ensures IsBucketing(buckets, order, Scanned(win, w, h), mapping)
  {
    ghost var xEnd := ScanEnd(win.xMax, w);
    buckets, order := map[], [];
    ghost var seen: seq<Pixel> := [];
    var y := win.yMin;
    while y <= win.yMax
      invariant win.yMin <= y && (y == win.yMin || y <= h) && (y <= win.yMax + 1 || y == win.yMin)
      invariant seen == ScanRows(win.xMin, xEnd, win.yMin, y)
      invariant IsBucketing(buckets, order, seen, mapping)
      decreases win.yMax + 1 - y
    {
      if y >= h {
        break;
      }
      buckets, order := ScanRowInto(win, w, y, mapping, buckets, order, seen);
      seen := seen + ScanRow(y, win.xMin, xEnd);
      y := y + 1;
    }
    ScanStop(win.yMin, win.yMax, h, y);
  }

  /**
   * `max_by_key` over the buckets in `order`: a bucket no shorter than any
   * other, the last such one on ties; none when there are no buckets.
   */
  method PickLargest(buckets: map<int, seq<Pixel>>, order: seq<int>) returns (found: bool, best: int)
    requires forall c :: c in order <==> c in buckets
    ensures found <==> |order| > 0
    ensures found ==> best in buckets && forall c :: c in buckets ==> |buckets[c]| <= |buckets[best]|
  {
    found, best := false, 0;
    for i := 0 to |order|
      invariant found <==> i > 0
      invariant found ==> best in buckets && forall j :: 0 <= j < i ==> order[j] in buckets && |buckets[order[j]]| <= |buckets[best]|
    {
      var c := order[i];
      if !found || |buckets[c]| >= |buckets[best]| {
        best := c;
        found := true;
      }
    }
  }
}
