/**
 * Coordinate transforms of the locator: 3x3 and 4x4 real matrices, the
 * inverses nalgebra's `try_inverse` computes for them, the `Transform` and
 * `MatrixWithInverse` records built once at start-up, and the three
 * projections between the lidar, camera and world frames.
 *
 * Products of matrices are written through `Dot3`/`Dot4` of rows and
 * columns, so that the algebraic lemmas below reduce to a handful of small
 * identities about vectors.
 */
module Geometry {
  import opened Common

  datatype Vec3 = Vec3(x: real, y: real, z: real)

  datatype Vec4 = Vec4(x: real, y: real, z: real, w: real)

  /** A 3x3 matrix, entry `mij` in row i and column j. */
  datatype Mat3 = Mat3(m00: real, m01: real, m02: real,
                       m10: real, m11: real, m12: real,
                       m20: real, m21: real, m22: real)

  /** A 4x4 matrix, entry `mij` in row i and column j. */
  datatype Mat4 = Mat4(m00: real, m01: real, m02: real, m03: real,
                       m10: real, m11: real, m12: real, m13: real,
                       m20: real, m21: real, m22: real, m23: real,
                       m30: real, m31: real, m32: real, m33: real)

  // ---------------------------------------------------------------- vectors

  function Add3(a: Vec3, b: Vec3): Vec3 {
    Vec3(a.x + b.x, a.y + b.y, a.z + b.z)
  }

  function Neg3(a: Vec3): Vec3 {
    Vec3(-a.x, -a.y, -a.z)
  }

  /**
   * Real multiplication behind a function symbol, so that equal factors give
   * equal products by congruence in the proofs below.
   */
  function Times(a: real, b: real): real {
    a * b
  }

  function Scale3(k: real, a: Vec3): Vec3 {
    Vec3(Times(k, a.x), Times(k, a.y), Times(k, a.z))
  }

  function Dot3(a: Vec3, b: Vec3): real {
    Times(a.x, b.x) + Times(a.y, b.y) + Times(a.z, b.z)
  }

  function Cross3(a: Vec3, b: Vec3): Vec3 {
    Vec3(Times(a.y, b.z) - Times(a.z, b.y),
         Times(a.z, b.x) - Times(a.x, b.z),
         Times(a.x, b.y) - Times(a.y, b.x))
  }

  function Dot4(a: Vec4, b: Vec4): real {
    Times(a.x, b.x) + Times(a.y, b.y) + Times(a.z, b.z) + Times(a.w, b.w)
  }

  /** `[p; 1]`, the homogeneous form of a point. */
  function Homogeneous(p: Vec3): Vec4 {
    Vec4(p.x, p.y, p.z, 1.0)
  }

  /** The first three coordinates (`view((0, 0), (3, 1))`). */
  function Head3(v: Vec4): Vec3 {
    Vec3(v.x, v.y, v.z)
  }

  lemma DotHomogeneous(r: Vec4, p: Vec3)
    ensures Dot4(r, Homogeneous(p)) == Dot3(Head3(r), p) + r.w
  {
  }

  lemma DotComm3(a: Vec3, b: Vec3)
    ensures Dot3(a, b) == Dot3(b, a)
  {
  }

  /** Scaling one factor scales the product; `d` names the unscaled product. */
  lemma DotScale3(k: real, a: Vec3, b: Vec3, d: real)
    requires d == Dot3(a, b)
    ensures Dot3(a, Scale3(k, b)) == Times(k, d)
  {
  }

  lemma ScaleDot3(k: real, a: Vec3, b: Vec3, d: real)
    requires d == Dot3(a, b)
    ensures Dot3(Scale3(k, a), b) == Times(k, d)
  {
  }

  /** The scalar triple product is invariant under cyclic rotation. */
  lemma TripleCyclic3(a: Vec3, b: Vec3, c: Vec3)
    ensures Dot3(a, Cross3(b, c)) == Dot3(b, Cross3(c, a))
  {
  }

  /** A cross product is orthogonal to both of its factors. */
  lemma CrossOrthogonal3(a: Vec3, b: Vec3)
    ensures Dot3(a, Cross3(a, b)) == 0.0
    ensures Dot3(b, Cross3(a, b)) == 0.0
  {
  }

  // ---------------------------------------------------------- 3x3 matrices

  const Identity3: Mat3 := Mat3(1.0, 0.0, 0.0, 0.0, 1.0, 0.0, 0.0, 0.0, 1.0)

  function ScalarMat3(d: real): Mat3 {
    Mat3(d, 0.0, 0.0, 0.0, d, 0.0, 0.0, 0.0, d)
  }

  function ScaleMat3(k: real, m: Mat3): Mat3 {
    Mat3(Times(k, m.m00), Times(k, m.m01), Times(k, m.m02),
         Times(k, m.m10), Times(k, m.m11), Times(k, m.m12),
         Times(k, m.m20), Times(k, m.m21), Times(k, m.m22))
  }

  function Row0(m: Mat3): Vec3 { Vec3(m.m00, m.m01, m.m02) }
  function Row1(m: Mat3): Vec3 { Vec3(m.m10, m.m11, m.m12) }
  function Row2(m: Mat3): Vec3 { Vec3(m.m20, m.m21, m.m22) }
  function Col0(m: Mat3): Vec3 { Vec3(m.m00, m.m10, m.m20) }
  function Col1(m: Mat3): Vec3 { Vec3(m.m01, m.m11, m.m21) }
  function Col2(m: Mat3): Vec3 { Vec3(m.m02, m.m12, m.m22) }

  /** The matrix whose columns are `c0`, `c1` and `c2`. */
  function FromColumns3(c0: Vec3, c1: Vec3, c2: Vec3): Mat3 {
    Mat3(c0.x, c1.x, c2.x, c0.y, c1.y, c2.y, c0.z, c1.z, c2.z)
  }

  function MulVec3(m: Mat3, v: Vec3): Vec3 {
    Vec3(Dot3(Row0(m), v), Dot3(Row1(m), v), Dot3(Row2(m), v))
  }

  /** The row vector `r` times `m`. */
  function RowMul3(r: Vec3, m: Mat3): Vec3 {
    Vec3(Dot3(r, Col0(m)), Dot3(r, Col1(m)), Dot3(r, Col2(m)))
  }

  function Mul3(a: Mat3, b: Mat3): Mat3 {
    Mat3(Dot3(Row0(a), Col0(b)), Dot3(Row0(a), Col1(b)), Dot3(Row0(a), Col2(b)),
         Dot3(Row1(a), Col0(b)), Dot3(Row1(a), Col1(b)), Dot3(Row1(a), Col2(b)),
         Dot3(Row2(a), Col0(b)), Dot3(Row2(a), Col1(b)), Dot3(Row2(a), Col2(b)))
  }

  function Det3(m: Mat3): real {
    Dot3(Row0(m), Cross3(Row1(m), Row2(m)))
  }

  /** The transposed matrix of cofactors; its columns are cross products of rows. */
  function Adjugate3(m: Mat3): Mat3 {
    FromColumns3(Cross3(Row1(m), Row2(m)), Cross3(Row2(m), Row0(m)), Cross3(Row0(m), Row1(m)))
  }

  /** `n` is a two-sided inverse of `m`. */
  predicate IsInverse3(m: Mat3, n: Mat3) {
    Mul3(m, n) == Identity3 && Mul3(n, m) == Identity3
  }

  /**
   * nalgebra's `try_inverse` for a 3x3 matrix: the cofactor formula, and no
   * inverse exactly when the determinant is zero.
   */
  function TryInverse3(m: Mat3): (r: Option<Mat3>)
    ensures r.None? <==> Det3(m) == 0.0
    ensures r.Some? ==> IsInverse3(m, r.value)
  {
    var d := Det3(m);
    if d == 0.0 then None
    else
      InverseFromAdjugate3(m);
      Some(ScaleMat3(1.0 / d, Adjugate3(m)))
  }

  lemma TimesComm(a: real, b: real)
    ensures Times(a, b) == Times(b, a)
  {
  }

  /** The rows of the adjugate are cross products of the columns. */
  lemma AdjugateRows3(m: Mat3)
    ensures Row0(Adjugate3(m)) == Cross3(Col1(m), Col2(m))
    ensures Row1(Adjugate3(m)) == Cross3(Col2(m), Col0(m))
    ensures Row2(Adjugate3(m)) == Cross3(Col0(m), Col1(m))
  {
    TimesComm(m.m01, m.m12);
    TimesComm(m.m01, m.m22);
    TimesComm(m.m02, m.m11);
    TimesComm(m.m02, m.m21);
    TimesComm(m.m11, m.m22);
    TimesComm(m.m12, m.m21);
    TimesComm(m.m00, m.m12);
    TimesComm(m.m00, m.m22);
    TimesComm(m.m02, m.m10);
    TimesComm(m.m02, m.m20);
    TimesComm(m.m10, m.m22);
    TimesComm(m.m12, m.m20);
    TimesComm(m.m00, m.m11);
    TimesComm(m.m00, m.m21);
    TimesComm(m.m01, m.m10);
    TimesComm(m.m01, m.m20);
    TimesComm(m.m10, m.m21);
    TimesComm(m.m11, m.m20);
  }

  /** The determinant of the transpose. */
  lemma DetColumns3(m: Mat3)
    ensures Det3(m) == Dot3(Col0(m), Cross3(Col1(m), Col2(m)))
  {
  }

  /** Laplace expansion: m * adj(m) == det(m) * I. */
  lemma MulAdjugate3(m: Mat3)
    ensures Mul3(m, Adjugate3(m)) == ScalarMat3(Det3(m))
  {
    var r0, r1, r2 := Row0(m), Row1(m), Row2(m);
    CrossOrthogonal3(r0, r1);
    CrossOrthogonal3(r1, r2);
    CrossOrthogonal3(r2, r0);
    TripleCyclic3(r0, r1, r2);
    TripleCyclic3(r1, r2, r0);
  }

  /** Laplace expansion along columns: adj(m) * m == det(m) * I. */
  lemma AdjugateMul3(m: Mat3)
    ensures Mul3(Adjugate3(m), m) == ScalarMat3(Det3(m))
  {
    var c0, c1, c2 := Col0(m), Col1(m), Col2(m);
    var a := Adjugate3(m);
    AdjugateRows3(m);
    DetColumns3(m);
    CrossOrthogonal3(c0, c1);
    CrossOrthogonal3(c1, c2);
    CrossOrthogonal3(c2, c0);
    TripleCyclic3(c0, c1, c2);
    TripleCyclic3(c1, c2, c0);
    DotComm3(Cross3(c1, c2), c0);
    DotComm3(Cross3(c1, c2), c1);
    DotComm3(Cross3(c1, c2), c2);
    DotComm3(Cross3(c2, c0), c0);
    DotComm3(Cross3(c2, c0), c1);
    DotComm3(Cross3(c2, c0), c2);
    DotComm3(Cross3(c0, c1), c0);
    DotComm3(Cross3(c0, c1), c1);
    DotComm3(Cross3(c0, c1), c2);
  }

  /** The rows of a scaled matrix are the scaled rows. */
  lemma ScaleRows3(k: real, m: Mat3)
    ensures Row0(ScaleMat3(k, m)) == Scale3(k, Row0(m))
    ensures Row1(ScaleMat3(k, m)) == Scale3(k, Row1(m))
    ensures Row2(ScaleMat3(k, m)) == Scale3(k, Row2(m))
  {
  }

  /** The columns of a scaled matrix are the scaled columns. */
  lemma ScaleColumns3(k: real, m: Mat3)
    ensures Col0(ScaleMat3(k, m)) == Scale3(k, Col0(m))
    ensures Col1(ScaleMat3(k, m)) == Scale3(k, Col1(m))
    ensures Col2(ScaleMat3(k, m)) == Scale3(k, Col2(m))
  {
  }

  /** Dividing the adjugate by a non-zero determinant gives a two-sided inverse. */
  lemma InverseFromAdjugate3(m: Mat3)
    requires Det3(m) != 0.0
    ensures IsInverse3(m, ScaleMat3(1.0 / Det3(m), Adjugate3(m)))
  {
    var d := Det3(m);
    var k := 1.0 / d;
    var a := Adjugate3(m);
    MulAdjugate3(m);
    AdjugateMul3(m);
    ScaleRows3(k, a);
    ScaleColumns3(k, a);
    DotScale3(k, Row0(m), Col0(a), d);
    DotScale3(k, Row0(m), Col1(a), 0.0);
    DotScale3(k, Row0(m), Col2(a), 0.0);
    DotScale3(k, Row1(m), Col0(a), 0.0);
    DotScale3(k, Row1(m), Col1(a), d);
    DotScale3(k, Row1(m), Col2(a), 0.0);
    DotScale3(k, Row2(m), Col0(a), 0.0);
    DotScale3(k, Row2(m), Col1(a), 0.0);
    DotScale3(k, Row2(m), Col2(a), d);
    ScaleDot3(k, Row0(a), Col0(m), d);
    ScaleDot3(k, Row0(a), Col1(m), 0.0);
    ScaleDot3(k, Row0(a), Col2(m), 0.0);
    ScaleDot3(k, Row1(a), Col0(m), 0.0);
    ScaleDot3(k, Row1(a), Col1(m), d);
    ScaleDot3(k, Row1(a), Col2(m), 0.0);
    ScaleDot3(k, Row2(a), Col0(m), 0.0);
    ScaleDot3(k, Row2(a), Col1(m), 0.0);
    ScaleDot3(k, Row2(a), Col2(m), d);
    assert Times(k, d) == 1.0;
    assert Times(k, 0.0) == 0.0;
  }

  /** `r . (b v) == (r b) . v` */
  lemma DotMulVec3(r: Vec3, b: Mat3, v: Vec3)
    ensures Dot3(r, MulVec3(b, v)) == Dot3(RowMul3(r, b), v)
  {
  }

  lemma MulVecAssoc3(a: Mat3, b: Mat3, v: Vec3)
    ensures MulVec3(a, MulVec3(b, v)) == MulVec3(Mul3(a, b), v)
  {
    DotMulVec3(Row0(a), b, v);
    DotMulVec3(Row1(a), b, v);
    DotMulVec3(Row2(a), b, v);
    assert Row0(Mul3(a, b)) == RowMul3(Row0(a), b);
    assert Row1(Mul3(a, b)) == RowMul3(Row1(a), b);
    assert Row2(Mul3(a, b)) == RowMul3(Row2(a), b);
  }

  lemma MulVecIdentity3(v: Vec3)
    ensures MulVec3(Identity3, v) == v
  {
  }

  lemma MulVecScale3(k: real, m: Mat3, v: Vec3)
    ensures MulVec3(ScaleMat3(k, m), v) == MulVec3(m, Scale3(k, v))
  {
    ScaledMulVec3(k, m, v);
    MulVecScaled3(k, m, v);
  }

  lemma ScaledMulVec3(k: real, m: Mat3, v: Vec3)
    ensures MulVec3(ScaleMat3(k, m), v) == Scale3(k, MulVec3(m, v))
  {
    var w := MulVec3(m, v);
    ScaleRows3(k, m);
    ScaleDot3(k, Row0(m), v, w.x);
    ScaleDot3(k, Row1(m), v, w.y);
    ScaleDot3(k, Row2(m), v, w.z);
  }

  lemma MulVecScaled3(k: real, m: Mat3, v: Vec3)
    ensures MulVec3(m, Scale3(k, v)) == Scale3(k, MulVec3(m, v))
  {
    var w := MulVec3(m, v);
    DotScale3(k, Row0(m), v, w.x);
    DotScale3(k, Row1(m), v, w.y);
    DotScale3(k, Row2(m), v, w.z);
  }

  /** Applying a matrix and then its inverse gives back the vector. */
  lemma InverseCancels3(m: Mat3, n: Mat3, v: Vec3)
    requires IsInverse3(m, n)
    ensures MulVec3(n, MulVec3(m, v)) == v
    ensures MulVec3(m, MulVec3(n, v)) == v
  {
    MulVecAssoc3(n, m, v);
    MulVecAssoc3(m, n, v);
    MulVecIdentity3(v);
  }

  // ---------------------------------------------------------- 4x4 matrices

  const Identity4: Mat4 := Mat4(1.0, 0.0, 0.0, 0.0,
                                0.0, 1.0, 0.0, 0.0,
                                0.0, 0.0, 1.0, 0.0,
                                0.0, 0.0, 0.0, 1.0)

  function Row4(m: Mat4, i: nat): Vec4
    requires i < 4
  {
    if i == 0 then Vec4(m.m00, m.m01, m.m02, m.m03)
    else if i == 1 then Vec4(m.m10, m.m11, m.m12, m.m13)
    else if i == 2 then Vec4(m.m20, m.m21, m.m22, m.m23)
    else Vec4(m.m30, m.m31, m.m32, m.m33)
  }

  function Col4(m: Mat4, j: nat): Vec4
    requires j < 4
  {
    if j == 0 then Vec4(m.m00, m.m10, m.m20, m.m30)
    else if j == 1 then Vec4(m.m01, m.m11, m.m21, m.m31)
    else if j == 2 then Vec4(m.m02, m.m12, m.m22, m.m32)
    else Vec4(m.m03, m.m13, m.m23, m.m33)
  }

  function MulVec4(m: Mat4, v: Vec4): Vec4 {
    Vec4(Dot4(Row4(m, 0), v), Dot4(Row4(m, 1), v), Dot4(Row4(m, 2), v), Dot4(Row4(m, 3), v))
  }

  function Mul4(a: Mat4, b: Mat4): Mat4 {
    Mat4(Dot4(Row4(a, 0), Col4(b, 0)), Dot4(Row4(a, 0), Col4(b, 1)), Dot4(Row4(a, 0), Col4(b, 2)), Dot4(Row4(a, 0), Col4(b, 3)),
         Dot4(Row4(a, 1), Col4(b, 0)), Dot4(Row4(a, 1), Col4(b, 1)), Dot4(Row4(a, 1), Col4(b, 2)), Dot4(Row4(a, 1), Col4(b, 3)),
         Dot4(Row4(a, 2), Col4(b, 0)), Dot4(Row4(a, 2), Col4(b, 1)), Dot4(Row4(a, 2), Col4(b, 2)), Dot4(Row4(a, 2), Col4(b, 3)),
         Dot4(Row4(a, 3), Col4(b, 0)), Dot4(Row4(a, 3), Col4(b, 1)), Dot4(Row4(a, 3), Col4(b, 2)), Dot4(Row4(a, 3), Col4(b, 3)))
  }

  function ScaleMat4(k: real, m: Mat4): Mat4 {
    Mat4(Times(k, m.m00), Times(k, m.m01), Times(k, m.m02), Times(k, m.m03),
         Times(k, m.m10), Times(k, m.m11), Times(k, m.m12), Times(k, m.m13),
         Times(k, m.m20), Times(k, m.m21), Times(k, m.m22), Times(k, m.m23),
         Times(k, m.m30), Times(k, m.m31), Times(k, m.m32), Times(k, m.m33))
  }

  /** Twice-indexed 3x3 minor of a 4x4 matrix: rows other than `i`, columns other than `j`. */
  function Minor4(m: Mat4, i: nat, j: nat): real
    requires i < 4 && j < 4
  {
    var rs := if i == 0 then [1, 2, 3] else if i == 1 then [0, 2, 3] else if i == 2 then [0, 1, 3] else [0, 1, 2];
    var cs := if j == 0 then [1, 2, 3] else if j == 1 then [0, 2, 3] else if j == 2 then [0, 1, 3] else [0, 1, 2];
    Det3(Mat3(Entry4(m, rs[0], cs[0]), Entry4(m, rs[0], cs[1]), Entry4(m, rs[0], cs[2]),
              Entry4(m, rs[1], cs[0]), Entry4(m, rs[1], cs[1]), Entry4(m, rs[1], cs[2]),
              Entry4(m, rs[2], cs[0]), Entry4(m, rs[2], cs[1]), Entry4(m, rs[2], cs[2])))
  }

  function Entry4(m: Mat4, i: nat, j: nat): real
    requires i < 4 && j < 4
  {
    var r := Row4(m, i);
    if j == 0 then r.x else if j == 1 then r.y else if j == 2 then r.z else r.w
  }

  function Cofactor4(m: Mat4, i: nat, j: nat): real
    requires i < 4 && j < 4
  {
    if (i + j) % 2 == 0 then Minor4(m, i, j) else -Minor4(m, i, j)
  }

  /** Laplace expansion along the first row. */
  function Det4(m: Mat4): real {
    m.m00 * Cofactor4(m, 0, 0) + m.m01 * Cofactor4(m, 0, 1)
    + m.m02 * Cofactor4(m, 0, 2) + m.m03 * Cofactor4(m, 0, 3)
  }

  /** The transposed matrix of cofactors. */
  function Adjugate4(m: Mat4): Mat4 {
    Mat4(Cofactor4(m, 0, 0), Cofactor4(m, 1, 0), Cofactor4(m, 2, 0), Cofactor4(m, 3, 0),
         Cofactor4(m, 0, 1), Cofactor4(m, 1, 1), Cofactor4(m, 2, 1), Cofactor4(m, 3, 1),
         Cofactor4(m, 0, 2), Cofactor4(m, 1, 2), Cofactor4(m, 2, 2), Cofactor4(m, 3, 2),
         Cofactor4(m, 0, 3), Cofactor4(m, 1, 3), Cofactor4(m, 2, 3), Cofactor4(m, 3, 3))
  }

  /**
   * nalgebra's `try_inverse` for a 4x4 matrix: the cofactor formula, and no
   * inverse exactly when the determinant is zero.
   */
  function TryInverse4(m: Mat4): (r: Option<Mat4>)
    ensures r.None? <==> Det4(m) == 0.0
    ensures r.Some? ==> r.value == ScaleMat4(1.0 / Det4(m), Adjugate4(m))
  {
    var d := Det4(m);
    if d == 0.0 then None else Some(ScaleMat4(1.0 / d, Adjugate4(m)))
  }

  // ------------------------------------------------------------ transforms

  /** The top-left 3x3 block (`fixed_view::<3, 3>(0, 0)`): the rotation part. */
  function TopLeft(m: Mat4): Mat3 {
    Mat3(m.m00, m.m01, m.m02, m.m10, m.m11, m.m12, m.m20, m.m21, m.m22)
  }

  /** Rows 0 to 2 of column 3: the translation part. */
  function TranslationOf(m: Mat4): Vec3 {
    Vec3(m.m03, m.m13, m.m23)
  }

  /** A rigid transform together with the inverses computed at construction. */
  datatype Transform = Transform(
    matrix: Mat4,
    matrixInverse: Mat4,
    rotation: Mat3,
    rotationInverse: Mat3,
    translation: Vec3,
    translationInverse: Vec3)

  /** A 3x3 matrix with its inverse (the camera intrinsic). */
  datatype MatrixWithInverse = MatrixWithInverse(matrix: Mat3, matrixInverse: Mat3)

  /** Construction failures; each carries the matrix that could not be inverted. */
  datatype GeometryError =
    | TransformNotInvertible(transform: Mat4)
    | RotationNotInvertible(rotation: Mat3)
    | MatrixNotInvertible(singular: Mat3)

  /** What a successfully built transform satisfies. */
  predicate ValidTransform(t: Transform) {
    && t.rotation == TopLeft(t.matrix)
    && IsInverse3(t.rotation, t.rotationInverse)
    && t.translation == TranslationOf(t.matrix)
    && t.translationInverse == Neg3(t.translation)
    && TryInverse4(t.matrix) == Some(t.matrixInverse)
  }

  /** `Transform::try_from`: invert the whole matrix, then its rotation block. */
  function TransformTryFrom(m: Mat4): (r: Result<Transform, GeometryError>)
    ensures Det4(m) == 0.0 ==> r == Failure(TransformNotInvertible(m))
    ensures Det4(m) != 0.0 && Det3(TopLeft(m)) == 0.0 ==> r == Failure(RotationNotInvertible(TopLeft(m)))
    ensures r.Success? <==> Det4(m) != 0.0 && Det3(TopLeft(m)) != 0.0
    ensures r.Success? ==> r.value.matrix == m && ValidTransform(r.value)
  {
    match TryInverse4(m)
    case None => Failure(TransformNotInvertible(m))
    case Some(mInv) =>
      var rot := TopLeft(m);
      match TryInverse3(rot)
      case None => Failure(RotationNotInvertible(rot))
      case Some(rotInv) =>
        var t := TranslationOf(m);
        Success(Transform(m, mInv, rot, rotInv, t, Neg3(t)))
  }

  /** `MatrixWithInverse::try_from` for the 3x3 camera intrinsic. */
  function MatrixWithInverseTryFrom(m: Mat3): (r: Result<MatrixWithInverse, GeometryError>)
    ensures r.Failure? <==> Det3(m) == 0.0
    ensures r.Failure? ==> r.error == MatrixNotInvertible(m)
    ensures r.Success? ==> r.value.matrix == m && IsInverse3(m, r.value.matrixInverse)
  {
    match TryInverse3(m)
    case None => Failure(MatrixNotInvertible(m))
    case Some(mInv) => Success(MatrixWithInverse(m, mInv))
  }

  // ----------------------------------------------------------- projections

  /** The lidar point in the camera frame, before the intrinsic: rows 0-2 of `T [p; 1]`. */
  function CameraFrame(t: Transform, p: Vec3): Vec3 {
    Head3(MulVec4(t.matrix, Homogeneous(p)))
  }

  /**
   * `lidar_to_camera`: `c = K (T [p; 1])[0..3]`, then `(c.x / c.z, c.y / c.z, c.z)`.
   * A zero `c.z` has no real quotient; it yields `None` here.
   */
  function LidarToCamera(k: MatrixWithInverse, t: Transform, p: Vec3): (r: Option<Vec3>)
    ensures r.None? <==> MulVec3(k.matrix, CameraFrame(t, p)).z == 0.0
    ensures r.Some? ==> r.value.z == MulVec3(k.matrix, CameraFrame(t, p)).z
    ensures r.Some? ==> Scale3(r.value.z, Vec3(r.value.x, r.value.y, 1.0)) == MulVec3(k.matrix, CameraFrame(t, p))
  {
    var c := MulVec3(k.matrix, CameraFrame(t, p));
    if c.z == 0.0 then None else Some(Vec3(c.x / c.z, c.y / c.z, c.z))
  }

  /** `camera_to_lidar`: `R^-1 (K^-1 z [u, v, 1] + t_inv)` for the pixel `(u, v)` at depth `z`. */
  function CameraToLidar(k: MatrixWithInverse, t: Transform, q: Vec3): Vec3 {
    MulVec3(t.rotationInverse,
            Add3(MulVec3(ScaleMat3(q.z, k.matrixInverse), Vec3(q.x, q.y, 1.0)), t.translationInverse))
  }

  /** `lidar_to_world`: `(W^-1 T) [p; 1]`, first three coordinates. */
  function LidarToWorld(worldToCamera: Transform, lidarToCamera: Transform, p: Vec3): Vec3 {
    Head3(MulVec4(Mul4(worldToCamera.matrixInverse, lidarToCamera.matrix), Homogeneous(p)))
  }

  /** Multiplying by zero gives zero. */
  lemma TimesZero(a: real)
    ensures Times(0.0, a) == 0.0 && Times(a, 0.0) == 0.0
  {
  }

  /** One is the multiplicative identity. */
  lemma TimesOne(a: real)
    ensures Times(1.0, a) == a
  {
  }

  /** The determinant of a diagonal matrix is the product of its diagonal. */
  lemma DetDiagonal3(a: real, b: real, c: real)
    ensures Det3(Mat3(a, 0.0, 0.0, 0.0, b, 0.0, 0.0, 0.0, c)) == Times(a, Times(b, c))
  {
    TimesZero(a);
    TimesZero(b);
    TimesZero(c);
  }

  /** The 3x3 identity has determinant one. */
  lemma IdentityDet3()
    ensures Det3(Identity3) == 1.0
  {
    DetDiagonal3(1.0, 1.0, 1.0);
    TimesOne(1.0);
  }

  /** Removing the first row and column of the 4x4 identity leaves the 3x3 identity. */
  lemma IdentityMinor4()
    ensures Minor4(Identity4, 0, 0) == 1.0
  {
    var m := Identity4;
    assert Entry4(m, 1, 1) == 1.0 && Entry4(m, 2, 2) == 1.0 && Entry4(m, 3, 3) == 1.0;
    assert Entry4(m, 1, 2) == 0.0 && Entry4(m, 1, 3) == 0.0 && Entry4(m, 2, 1) == 0.0;
    assert Entry4(m, 2, 3) == 0.0 && Entry4(m, 3, 1) == 0.0 && Entry4(m, 3, 2) == 0.0;
    IdentityDet3();
  }

  /** The 4x4 identity has determinant one (expansion along the first row). */
  lemma IdentityDet4()
    ensures Det4(Identity4) == 1.0
  {
    var m := Identity4;
    assert m.m00 == 1.0 && m.m01 == 0.0 && m.m02 == 0.0 && m.m03 == 0.0;
    IdentityMinor4();
    assert Cofactor4(m, 0, 0) == 1.0;
  }

  /** The rotation block of the 4x4 identity is the 3x3 identity. */
  lemma IdentityTopLeft()
    ensures TopLeft(Identity4) == Identity3
  {
  }

  /** The identity intrinsic passes `MatrixWithInverse::try_from`. */
  lemma IdentityIntrinsicAccepted()
    ensures MatrixWithInverseTryFrom(Identity3).Success?
  {
    IdentityDet3();
  }

  /** The rotation block of the 4x4 identity has determinant one. */
  lemma IdentityRotationDet()
    ensures Det3(TopLeft(Identity4)) == 1.0
  {
    IdentityTopLeft();
    IdentityDet3();
  }

  /** The identity matrices meet every determinant condition of `MatrixWithInverse::try_from` and `Transform::try_from`. */
  lemma IdentityInvertible()
    ensures Det3(Identity3) == 1.0
    ensures Det4(Identity4) == 1.0
    ensures Det3(TopLeft(Identity4)) == 1.0
  {
    IdentityDet3();
    IdentityDet4();
    IdentityRotationDet();
  }

  /** The identity transform leaves a lidar point where it is. */
  lemma IdentityCameraFrame(t: Transform, p: Vec3)
    requires t.matrix == Identity4
    ensures CameraFrame(t, p) == p
  {
  }

  /** The top three rows of an affine product are a rotation plus a translation. */
  lemma CameraFrameAffine(t: Transform, p: Vec3)
    requires ValidTransform(t)
    ensures CameraFrame(t, p) == Add3(MulVec3(t.rotation, p), t.translation)
  {
    var m := t.matrix;
    DotHomogeneous(Row4(m, 0), p);
    DotHomogeneous(Row4(m, 1), p);
    DotHomogeneous(Row4(m, 2), p);
    assert Head3(Row4(m, 0)) == Row0(TopLeft(m));
    assert Head3(Row4(m, 1)) == Row1(TopLeft(m));
    assert Head3(Row4(m, 2)) == Row2(TopLeft(m));
  }

  /**
   * Over exact arithmetic a point that projects to a non-zero depth comes back
   * unchanged: `camera_to_lidar(lidar_to_camera(p)) == p`.
   */
  lemma RoundTrip(k: MatrixWithInverse, t: Transform, p: Vec3)
    requires IsInverse3(k.matrix, k.matrixInverse)
    requires ValidTransform(t)
    requires LidarToCamera(k, t, p).Some?
    ensures CameraToLidar(k, t, LidarToCamera(k, t, p).value) == p
  {
    var q := LidarToCamera(k, t, p).value;
    var cam := CameraFrame(t, p);
    var rp := MulVec3(t.rotation, p);
    CameraFrameAffine(t, p);
    MulVecScale3(q.z, k.matrixInverse, Vec3(q.x, q.y, 1.0));
    InverseCancels3(k.matrix, k.matrixInverse, cam);
    assert MulVec3(ScaleMat3(q.z, k.matrixInverse), Vec3(q.x, q.y, 1.0)) == cam;
    assert Add3(cam, t.translationInverse) == rp;
    InverseCancels3(t.rotation, t.rotationInverse, p);
  }
}
