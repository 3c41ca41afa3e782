/**
 * Value-level specification of the per-frame raster, the background running
 * maximum, the bounded queue of recent rasters and the thresholded difference
 * raster that the locator's depth-map update computes in place.
 *
 * A raster is indexed `r[x][y]` with `x` below the image width and `y` below
 * the image height, as the image buffer's `(x, y)` pixels are.
 */
module DepthMap {
  import opened Common

  /** How many per-frame rasters the locator keeps. */
  const DepthMapQueueSize: nat := 3

  /** An accepted point after projection: its pixel and its camera depth. */
  datatype Hit = Hit(u: nat, v: nat, depth: real)

  type Raster = seq<seq<real>>

  predicate IsRaster(r: Raster, w: nat, h: nat) {
    |r| == w && forall x :: 0 <= x < w ==> |r[x]| == h
  }

  predicate AllRasters(q: seq<Raster>, w: nat, h: nat) {
    forall k :: 0 <= k < |q| ==> IsRaster(q[k], w, h)
  }

  /** The raster of a fresh `ImageBuffer::new(w, h)`: every pixel 0. */
  function Blank(w: nat, h: nat): (r: Raster)
    ensures IsRaster(r, w, h)
    ensures forall x, y :: 0 <= x < w && 0 <= y < h ==> r[x][y] == 0.0
  {
    seq(w, x => seq(h, y => 0.0))
  }

  /** The point, if accepted, landed on pixel `(x, y)`. */
  predicate LandsAt(o: Option<Hit>, x: nat, y: nat) {
    o.Some? && o.value.u == x && o.value.v == y
  }

  // --------------------------------------------------------- frame raster

  /** Depth the per-frame raster holds at `(x, y)` after writing `hits` in order. */
  function FrameDepth(hits: seq<Option<Hit>>, x: nat, y: nat): real
    decreases |hits|
  {
    if |hits| == 0 then 0.0
    else if LandsAt(hits[|hits| - 1], x, y) then hits[|hits| - 1].value.depth
    else FrameDepth(hits[..|hits| - 1], x, y)
  }

  function FrameRaster(hits: seq<Option<Hit>>, w: nat, h: nat): (r: Raster)
    ensures IsRaster(r, w, h)
    ensures forall x, y :: 0 <= x < w && 0 <= y < h ==> r[x][y] == FrameDepth(hits, x, y)
  {
    seq(w, x requires 0 <= x < w => seq(h, y requires 0 <= y < h => FrameDepth(hits, x, y)))
  }

  /** A pixel that no point lands on stays 0. */
  lemma {:induction false} FrameDepthUntouched(hits: seq<Option<Hit>>, x: nat, y: nat)
    requires forall i :: 0 <= i < |hits| ==> !LandsAt(hits[i], x, y)
    ensures FrameDepth(hits, x, y) == 0.0
    decreases |hits|
  {
    if |hits| > 0 {
      var init := hits[..|hits| - 1];
      assert forall i :: 0 <= i < |init| ==> init[i] == hits[i];
      FrameDepthUntouched(init, x, y);
    }
  }

  /** Last writer wins: a pixel holds the depth of the last point that lands on it. */
  lemma {:induction false} FrameDepthLastWins(hits: seq<Option<Hit>>, x: nat, y: nat, i: nat)
    requires i < |hits| && LandsAt(hits[i], x, y)
    requires forall j :: i < j < |hits| ==> !LandsAt(hits[j], x, y)
    ensures FrameDepth(hits, x, y) == hits[i].value.depth
    decreases |hits|
  {
    if i < |hits| - 1 {
      var init := hits[..|hits| - 1];
      assert init[i] == hits[i];
      assert forall j :: i < j < |init| ==> init[j] == hits[j];
      FrameDepthLastWins(init, x, y, i);
    }
  }

  // ---------------------------------------------------- background maximum

  /** The background value at `(x, y)` after raising `b` with every hit on that pixel. */
  function RaisedBackground(b: real, hits: seq<Option<Hit>>, x: nat, y: nat): real
    decreases |hits|
  {
    if |hits| == 0 then b
    else
      var prev := RaisedBackground(b, hits[..|hits| - 1], x, y);
      var last := hits[|hits| - 1];
      if LandsAt(last, x, y) && last.value.depth > prev then last.value.depth else prev
  }

  /**
   * The raised background is the maximum of the old value and every depth
   * that lands on the pixel: it never decreases, it bounds every such depth,
   * and it is either the old value or one of them.
   */
  lemma {:induction false} RaisedBackgroundIsMax(b: real, hits: seq<Option<Hit>>, x: nat, y: nat)
    ensures RaisedBackground(b, hits, x, y) >= b
    ensures forall i :: 0 <= i < |hits| && LandsAt(hits[i], x, y) ==> RaisedBackground(b, hits, x, y) >= hits[i].value.depth
    ensures RaisedBackground(b, hits, x, y) == b
            || exists i :: 0 <= i < |hits| && LandsAt(hits[i], x, y) && RaisedBackground(b, hits, x, y) == hits[i].value.depth
    decreases |hits|
  {
    if |hits| > 0 {
      var init := hits[..|hits| - 1];
      RaisedBackgroundIsMax(b, init, x, y);
      assert forall i :: 0 <= i < |init| ==> init[i] == hits[i];
    }
  }

  /** A pixel that no accepted point lands on keeps its background value. */
  lemma {:induction false} RaisedBackgroundUntouched(b: real, hits: seq<Option<Hit>>, x: nat, y: nat)
    requires forall i :: 0 <= i < |hits| ==> !LandsAt(hits[i], x, y)
    ensures RaisedBackground(b, hits, x, y) == b
    decreases |hits|
  {
    if |hits| > 0 {
      RaisedBackgroundUntouched(b, hits[..|hits| - 1], x, y);
    }
  }

  /** The background raster after a frame, pixel by pixel. */
  function RaisedRaster(bg: Raster, hits: seq<Option<Hit>>, w: nat, h: nat): (r: Raster)
    requires IsRaster(bg, w, h)
    ensures IsRaster(r, w, h)
    ensures forall x, y :: 0 <= x < w && 0 <= y < h ==> r[x][y] == RaisedBackground(bg[x][y], hits, x, y)
  {
    seq(w, x requires 0 <= x < w => seq(h, y requires 0 <= y < h => RaisedBackground(bg[x][y], hits, x, y)))
  }

  // ---------------------------------------------------------- frame queue

  /** `push_back` followed by `pop_front` when the queue holds more than three rasters. */
  function PushFrame(q: seq<Raster>, r: Raster): (q': seq<Raster>)
    ensures |q| < DepthMapQueueSize ==> q' == q + [r]
    ensures |q| >= DepthMapQueueSize ==> q' == q[1..] + [r]
  {
    var q1 := q + [r];
    if |q1| > DepthMapQueueSize then q1[1..] else q1
  }

  /** The last three rasters of `history` (all of them while there are fewer), oldest first. */
  function Recent(history: seq<Raster>): (q: seq<Raster>)
    ensures |q| == if |history| < DepthMapQueueSize then |history| else DepthMapQueueSize
    ensures q == history[|history| - |q|..]
  {
    if |history| <= DepthMapQueueSize then history
    else history[|history| - DepthMapQueueSize..]
  }

  /** Pushing the next raster onto the recent ones gives the recent ones of the longer history. */
  lemma RecentPush(history: seq<Raster>, r: Raster)
    ensures PushFrame(Recent(history), r) == Recent(history + [r])
  {
    var h := history + [r];
    if |history| >= DepthMapQueueSize {
      assert Recent(history) + [r] == h[|h| - DepthMapQueueSize - 1..];
    }
  }

  // ---------------------------------------------------- difference raster

  /** The distance to the background lies strictly between the two thresholds. */
  predicate Passes(v: real, bg: real, lo: real, hi: real) {
    lo < Abs(v - bg) < hi
  }

  /**
   * The difference pixel after visiting the queued depths `values` oldest
   * first: each passing one overwrites the pixel, each failing one leaves it.
   */
  function NewestPassing(values: seq<real>, bg: real, lo: real, hi: real): real
    decreases |values|
  {
    if |values| == 0 then 0.0
    else if Passes(values[|values| - 1], bg, lo, hi) then Abs(values[|values| - 1] - bg)
    else NewestPassing(values[..|values| - 1], bg, lo, hi)
  }

  /** No queued depth passes: the difference pixel stays 0. */
  lemma {:induction false} NewestPassingNone(values: seq<real>, bg: real, lo: real, hi: real)
    requires forall k :: 0 <= k < |values| ==> !Passes(values[k], bg, lo, hi)
    ensures NewestPassing(values, bg, lo, hi) == 0.0
    decreases |values|
  {
    if |values| > 0 {
      NewestPassingNone(values[..|values| - 1], bg, lo, hi);
    }
  }

  /** The difference pixel is `|d_k - bg|` for the newest passing depth `d_k`. */
  lemma {:induction false} NewestPassingNewest(values: seq<real>, bg: real, lo: real, hi: real, k: nat)
    requires k < |values| && Passes(values[k], bg, lo, hi)
    requires forall j :: k < j < |values| ==> !Passes(values[j], bg, lo, hi)
    ensures NewestPassing(values, bg, lo, hi) == Abs(values[k] - bg)
    decreases |values|
  {
    if k < |values| - 1 {
      var init := values[..|values| - 1];
      assert forall j :: k < j < |init| ==> init[j] == values[j];
      NewestPassingNewest(init, bg, lo, hi, k);
    }
  }

  /** A newer depth that fails the thresholds does not clear an older difference. */
  lemma NewestPassingKeeps(values: seq<real>, v: real, bg: real, lo: real, hi: real)
    requires !Passes(v, bg, lo, hi)
    ensures NewestPassing(values + [v], bg, lo, hi) == NewestPassing(values, bg, lo, hi)
  {
    assert (values + [v])[..|values|] == values;
  }

  /** The depths the queued rasters hold at `(x, y)`, oldest first. */
  function PixelHistory(q: seq<Raster>, w: nat, h: nat, x: nat, y: nat): (vs: seq<real>)
    requires AllRasters(q, w, h) && x < w && y < h
    ensures |vs| == |q|
    ensures forall k :: 0 <= k < |q| ==> vs[k] == q[k][x][y]
  {
    seq(|q|, k requires 0 <= k < |q| => q[k][x][y])
  }

  /** The difference raster of a queue against a background. */
  function DifferenceRaster(q: seq<Raster>, bg: Raster, w: nat, h: nat, lo: real, hi: real): (r: Raster)
    requires AllRasters(q, w, h) && IsRaster(bg, w, h)
    ensures IsRaster(r, w, h)
    ensures forall x, y :: 0 <= x < w && 0 <= y < h ==>
              r[x][y] == NewestPassing(PixelHistory(q, w, h, x, y), bg[x][y], lo, hi)
  {
    seq(w, x requires 0 <= x < w =>
      seq(h, y requires 0 <= y < h => NewestPassing(PixelHistory(q, w, h, x, y), bg[x][y], lo, hi)))
  }

  /**
   * The frame values of the depth-map unit test: frame 0 holds `(2, 3)` at
   * depth 1 and frame 1 holds `(0, 1)` at depth 3 and `(2, 3)` at depth 1.
   * With thresholds 0.1 and 10, pixel `(0, 1)` comes out as 3: frame 0's
   * empty pixel measured against the raised background 3.
   */
  lemma TwoFrameScenario()
    ensures var hits0 := [Some(Hit(2, 3, 1.0))];
            var hits1 := [Some(Hit(0, 1, 3.0)), Some(Hit(2, 3, 1.0))];
            var bg := RaisedBackground(RaisedBackground(0.0, hits0, 0, 1), hits1, 0, 1);
            NewestPassing([FrameDepth(hits0, 0, 1), FrameDepth(hits1, 0, 1)], bg, 0.1, 10.0) == 3.0
  {
    var hits0 := [Some(Hit(2, 3, 1.0))];
    var hits1 := [Some(Hit(0, 1, 3.0)), Some(Hit(2, 3, 1.0))];
    assert hits0[..0] == [];
    assert hits1[..1] == [Some(Hit(0, 1, 3.0))];
    assert hits1[..1][..0] == [];
    assert FrameDepth(hits0, 0, 1) == 0.0;
    assert FrameDepth(hits1, 0, 1) == 3.0;
    assert RaisedBackground(0.0, hits0, 0, 1) == 0.0;
    assert RaisedBackground(0.0, hits1, 0, 1) == 3.0;
    var vs := [0.0, 3.0];
    assert vs[..1] == [0.0];
  }

  /**
   * The same two frames through the whole depth-map update of a fresh
   * 640 by 480 state: the queue holds both frame rasters, the background is
   * raised by both, and pixel `(0, 1)` of the difference raster is 3.
   */
  lemma TwoFrameDifference(hits0: seq<Option<Hit>>, hits1: seq<Option<Hit>>)
    requires hits0 == [Some(Hit(2, 3, 1.0))]
    requires hits1 == [Some(Hit(0, 1, 3.0)), Some(Hit(2, 3, 1.0))]
    ensures var q := PushFrame(PushFrame([], FrameRaster(hits0, 640, 480)), FrameRaster(hits1, 640, 480));
            var bg := RaisedRaster(RaisedRaster(Blank(640, 480), hits0, 640, 480), hits1, 640, 480);
            DifferenceRaster(q, bg, 640, 480, 0.1, 10.0)[0][1] == 3.0
  {
    TwoFrameScenario();
    var f0, f1 := FrameRaster(hits0, 640, 480), FrameRaster(hits1, 640, 480);
    var q := PushFrame(PushFrame([], f0), f1);
    assert q == [f0, f1];
    var b0 := RaisedRaster(Blank(640, 480), hits0, 640, 480);
    var bg := RaisedRaster(b0, hits1, 640, 480);
    assert b0[0][1] == RaisedBackground(0.0, hits0, 0, 1);
    assert bg[0][1] == RaisedBackground(b0[0][1], hits1, 0, 1);
    var vs := PixelHistory(q, 640, 480, 0, 1);
    assert vs == [FrameDepth(hits0, 0, 1), FrameDepth(hits1, 0, 1)];
    var d := DifferenceRaster(q, bg, 640, 480, 0.1, 10.0);
    assert d[0][1] == NewestPassing(vs, bg[0][1], 0.1, 10.0);
  }

  /**
   * A fresh state given a frame none of whose points lands: the queue holds
   * one empty raster, the background stays blank, and every pixel of the
   * difference raster is 0, whatever the thresholds.
   */
  lemma FirstFrameQuiet(hits: seq<Option<Hit>>, w: nat, h: nat, lo: real, hi: real, x: nat, y: nat)
    requires forall i :: 0 <= i < |hits| ==> hits[i].None?
    requires x < w && y < h
    ensures DifferenceRaster(PushFrame([], FrameRaster(hits, w, h)), RaisedRaster(Blank(w, h), hits, w, h),
                             w, h, lo, hi)[x][y] == 0.0
  {
    FrameDepthUntouched(hits, x, y);
    RaisedBackgroundUntouched(0.0, hits, x, y);
    var f := FrameRaster(hits, w, h);
    var bg := RaisedRaster(Blank(w, h), hits, w, h);
    assert PushFrame([], f) == [f];
    assert bg[x][y] == 0.0;
    var vs := PixelHistory([f], w, h, x, y);
    assert vs == [0.0];
    assert vs[..0] == [];
    assert NewestPassing(vs, bg[x][y], lo, hi) == 0.0;
    assert DifferenceRaster([f], bg, w, h, lo, hi)[x][y] == 0.0;
  }

  /**
   * A warmed-up state is not quiet on an empty frame: frame 0 lands one point
   * at `(1, 1)` with depth 5, raising the background there to 5; after an
   * empty frame 1 the queue is both rasters, frame 1's 0 lies 5 from the
   * background, and with thresholds below and above 5 the difference at
   * `(1, 1)` is 5.
   */
  lemma WarmedUpDifference(hits0: seq<Option<Hit>>, hits1: seq<Option<Hit>>, w: nat, h: nat, lo: real, hi: real)
    requires hits0 == [Some(Hit(1, 1, 5.0))] && hits1 == []
    requires 1 < w && 1 < h && lo < 5.0 < hi
    ensures var q := PushFrame(PushFrame([], FrameRaster(hits0, w, h)), FrameRaster(hits1, w, h));
            var bg := RaisedRaster(RaisedRaster(Blank(w, h), hits0, w, h), hits1, w, h);
            DifferenceRaster(q, bg, w, h, lo, hi)[1][1] == 5.0
  {
    var f0, f1 := FrameRaster(hits0, w, h), FrameRaster(hits1, w, h);
    var q := PushFrame(PushFrame([], f0), f1);
    assert q == [f0, f1];
    assert hits0[..0] == [];
    assert FrameDepth(hits0, 1, 1) == 5.0;
    assert RaisedBackground(0.0, hits0, 1, 1) == 5.0;
    var b0 := RaisedRaster(Blank(w, h), hits0, w, h);
    var bg := RaisedRaster(b0, hits1, w, h);
    assert bg[1][1] == 5.0;
    var vs := PixelHistory(q, w, h, 1, 1);
    assert vs == [5.0, 0.0];
  }
}
