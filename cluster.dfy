/**
 * Value-level specification of the cluster mapping: the foreground pixels of
 * a difference raster in the image buffer's row-major order, and the
 * pixel-to-label map built by zipping them with the labels the clustering
 * returns.
 */
module Cluster {
  import opened Common
  import opened Geometry
  import opened DepthMap

  /** A pixel of the image, `(x, y)`. */
  type Pixel = (nat, nat)

  /** A foreground pixel together with its depth. */
  datatype CameraPoint = CameraPoint(x: nat, y: nat, depth: real)

  function PixelOf(c: CameraPoint): Pixel {
    (c.x, c.y)
  }

  /** A depth counts as foreground when it is non-zero (`is_normal`). */
  predicate Foreground(d: real) {
    d != 0.0
  }

  /** The foreground pixels `(x', y)` with `x' < x` of row `y`, left to right. */
  function ForegroundRow(r: Raster, w: nat, h: nat, y: nat, x: nat): seq<CameraPoint>
    requires IsRaster(r, w, h) && y < h && x <= w
    decreases x
  {
    if x == 0 then []
    else
      var init := ForegroundRow(r, w, h, y, x - 1);
      if Foreground(r[x - 1][y]) then init + [CameraPoint(x - 1, y, r[x - 1][y])] else init
  }

  /** The foreground pixels of rows `y' < y`, row by row. */
  function ForegroundRows(r: Raster, w: nat, h: nat, y: nat): seq<CameraPoint>
    requires IsRaster(r, w, h) && y <= h
    decreases y
  {
    if y == 0 then [] else ForegroundRows(r, w, h, y - 1) + ForegroundRow(r, w, h, y - 1, w)
  }

  /** Every foreground pixel of the raster, in `enumerate_pixels` order. */
  function ForegroundPixels(r: Raster, w: nat, h: nat): seq<CameraPoint>
    requires IsRaster(r, w, h)
  {
    ForegroundRows(r, w, h, h)
  }

  /** A camera point is listed by `ForegroundRow` exactly when it is a foreground pixel left of `x`. */
  lemma {:induction false} ForegroundRowMembers(r: Raster, w: nat, h: nat, y: nat, x: nat)
    requires IsRaster(r, w, h) && y < h && x <= w
    ensures forall c :: c in ForegroundRow(r, w, h, y, x) <==>
              c.y == y && c.x < x && Foreground(r[c.x][y]) && c.depth == r[c.x][y]
    ensures forall i, j :: 0 <= i < j < |ForegroundRow(r, w, h, y, x)| ==>
              ForegroundRow(r, w, h, y, x)[i].x < ForegroundRow(r, w, h, y, x)[j].x
    decreases x
  {
    if x > 0 {
      ForegroundRowMembers(r, w, h, y, x - 1);
    }
  }

  /** A camera point is listed by `ForegroundRows` exactly when it is a foreground pixel above row `y`. */
  lemma {:induction false} ForegroundRowsMembers(r: Raster, w: nat, h: nat, y: nat)
    requires IsRaster(r, w, h) && y <= h
    ensures forall c :: c in ForegroundRows(r, w, h, y) <==>
              c.y < y && c.x < w && Foreground(r[c.x][c.y]) && c.depth == r[c.x][c.y]
    ensures forall i, j :: 0 <= i < j < |ForegroundRows(r, w, h, y)| ==>
              PixelOf(ForegroundRows(r, w, h, y)[i]) != PixelOf(ForegroundRows(r, w, h, y)[j])
    decreases y
  {
    if y > 0 {
      ForegroundRowsMembers(r, w, h, y - 1);
      ForegroundRowMembers(r, w, h, y - 1, w);
      var a, b := ForegroundRows(r, w, h, y - 1), ForegroundRow(r, w, h, y - 1, w);
      forall i, j | 0 <= i < j < |a + b|
        ensures PixelOf((a + b)[i]) != PixelOf((a + b)[j])
      {
        if j >= |a| && i < |a| {
          assert (a + b)[i] in a;
          assert (a + b)[j] in b;
        }
      }
    }
  }

  /**
   * The foreground list holds each non-zero pixel of the raster exactly once,
   * with its depth.
   */
  lemma ForegroundPixelsMembers(r: Raster, w: nat, h: nat)
    requires IsRaster(r, w, h)
    ensures forall c :: c in ForegroundPixels(r, w, h) <==>
              c.x < w && c.y < h && Foreground(r[c.x][c.y]) && c.depth == r[c.x][c.y]
    ensures forall i, j :: 0 <= i < j < |ForegroundPixels(r, w, h)| ==>
              PixelOf(ForegroundPixels(r, w, h)[i]) != PixelOf(ForegroundPixels(r, w, h)[j])
  {
    ForegroundRowsMembers(r, w, h, h);
  }

  /** The pixels of a camera-point list are pairwise distinct. */
  predicate DistinctPixels(cs: seq<CameraPoint>) {
    forall i, j :: 0 <= i < j < |cs| ==> PixelOf(cs[i]) != PixelOf(cs[j])
  }

  /** The map after inserting the first `n` zipped pairs, in order. */
  function ZipInsert(cs: seq<CameraPoint>, labels: seq<int>, n: nat): map<Pixel, int>
    requires n <= |cs| && n <= |labels|
    decreases n
  {
    if n == 0 then map[] else ZipInsert(cs, labels, n - 1)[PixelOf(cs[n - 1]) := labels[n - 1]]
  }

  function Shorter(a: nat, b: nat): nat {
    if a <= b then a else b
  }

  /** `cs.zip(labels)` inserted into an empty map: extra entries on either side are dropped. */
  function ZipMap(cs: seq<CameraPoint>, labels: seq<int>): map<Pixel, int> {
    ZipInsert(cs, labels, Shorter(|cs|, |labels|))
  }

  /**
   * With distinct pixels, the first `n` pixels are exactly the keys and each
   * is mapped to the label at its own position.
   */
  lemma {:induction false} ZipInsertSpec(cs: seq<CameraPoint>, labels: seq<int>, n: nat)
    requires n <= |cs| && n <= |labels| && DistinctPixels(cs)
    ensures forall p :: p in ZipInsert(cs, labels, n) <==> exists i :: 0 <= i < n && PixelOf(cs[i]) == p
    ensures forall i :: 0 <= i < n ==>
              PixelOf(cs[i]) in ZipInsert(cs, labels, n) && ZipInsert(cs, labels, n)[PixelOf(cs[i])] == labels[i]
    decreases n
  {
    if n > 0 {
      ZipInsertSpec(cs, labels, n - 1);
    }
  }

  /** The keys of the zipped map are the first `min(|cs|, |labels|)` pixels, each with its own label. */
  lemma ZipMapSpec(cs: seq<CameraPoint>, labels: seq<int>)
    requires DistinctPixels(cs)
    ensures forall p :: p in ZipMap(cs, labels) <==>
              exists i :: 0 <= i < |cs| && i < |labels| && PixelOf(cs[i]) == p
    ensures forall i :: 0 <= i < |cs| && i < |labels| ==>
              PixelOf(cs[i]) in ZipMap(cs, labels) && ZipMap(cs, labels)[PixelOf(cs[i])] == labels[i]
  {
    ZipInsertSpec(cs, labels, Shorter(|cs|, |labels|));
  }

  /** `camera_to_lidar` of pixel `(x, y)` at `depth`. */
  function Unproject(k: MatrixWithInverse, t: Transform, c: CameraPoint): Vec3 {
    CameraToLidar(k, t, Vec3(c.x as real, c.y as real, c.depth))
  }

  function UnprojectAll(k: MatrixWithInverse, t: Transform, cs: seq<CameraPoint>): (ps: seq<Vec3>)
    ensures |ps| == |cs|
    ensures forall i :: 0 <= i < |cs| ==> ps[i] == Unproject(k, t, cs[i])
  {
    seq(|cs|, i requires 0 <= i < |cs| => Unproject(k, t, cs[i]))
  }

  /**
   * The cluster map of a difference raster: the foreground pixels zipped with
   * the labels the clustering assigns to their unprojected points.
   */
  function CategoryMap(r: Raster, w: nat, h: nat, labels: seq<int>): map<Pixel, int>
    requires IsRaster(r, w, h)
  {
    ZipMap(ForegroundPixels(r, w, h), labels)
  }

  /**
   * Every key of the cluster map is a foreground pixel of the raster, and
   * when the clustering returns one label per point the keys are exactly the
   * foreground pixels, each with the label of its own point.
   */
  lemma CategoryMapDomain(r: Raster, w: nat, h: nat, labels: seq<int>)
    requires IsRaster(r, w, h)
    ensures forall p :: p in CategoryMap(r, w, h, labels) ==>
              p.0 < w && p.1 < h && Foreground(r[p.0][p.1])
    ensures |labels| == |ForegroundPixels(r, w, h)| ==>
              forall x: nat, y: nat :: (x, y) in CategoryMap(r, w, h, labels) <==>
                x < w && y < h && Foreground(r[x][y])
    ensures forall i :: 0 <= i < |ForegroundPixels(r, w, h)| && i < |labels| ==>
              PixelOf(ForegroundPixels(r, w, h)[i]) in CategoryMap(r, w, h, labels) &&
              CategoryMap(r, w, h, labels)[PixelOf(ForegroundPixels(r, w, h)[i])] == labels[i]
  {
    var fg := ForegroundPixels(r, w, h);
    ForegroundPixelsMembers(r, w, h);
    ZipMapSpec(fg, labels);
    forall p | p in CategoryMap(r, w, h, labels)
      ensures p.0 < w && p.1 < h && Foreground(r[p.0][p.1])
    {
      var i :| 0 <= i < |fg| && i < |labels| && PixelOf(fg[i]) == p;
      assert fg[i] in fg;
    }
    if |labels| == |fg| {
      forall x: nat, y: nat | x < w && y < h && Foreground(r[x][y])
        ensures (x, y) in CategoryMap(r, w, h, labels)
      {
        var c := CameraPoint(x, y, r[x][y]);
        assert c in fg;
        var i :| 0 <= i < |fg| && fg[i] == c;
        assert PixelOf(fg[i]) == (x, y);
      }
    }
  }
}
