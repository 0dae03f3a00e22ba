/**
 * 4x4 homogeneous matrices over exact reals, as numpy builds them with
 * `np.identity(4)` and `np.dot`, and points in 3-space.
 */
module Matrices {

  type Matrix = seq<seq<real>>

  datatype Point = Point(x: real, y: real, z: real)

  predicate IsMat4(m: Matrix)
  {
    |m| == 4 && |m[0]| == 4 && |m[1]| == 4 && |m[2]| == 4 && |m[3]| == 4
  }

  /** A matrix whose bottom row is (0, 0, 0, 1): it maps w = 1 to w = 1. */
  predicate IsAffine(m: Matrix)
  {
    IsMat4(m) && m[3] == [0.0, 0.0, 0.0, 1.0]
  }

  /** An affine matrix with a zero translation column (rotations, scalings). */
  predicate IsLinear(m: Matrix)
  {
    IsAffine(m) && m[0][3] == 0.0 && m[1][3] == 0.0 && m[2][3] == 0.0
  }

  function Identity(): (m: Matrix)
    ensures IsLinear(m)
    ensures forall i, j :: 0 <= i < 4 && 0 <= j < 4 ==> m[i][j] == if i == j then 1.0 else 0.0
  {
    [[1.0, 0.0, 0.0, 0.0],
     [0.0, 1.0, 0.0, 0.0],
     [0.0, 0.0, 1.0, 0.0],
     [0.0, 0.0, 0.0, 1.0]]
  }

  /** The matrix product `np.dot(a, b)`. */
  function Mul(a: Matrix, b: Matrix): (c: Matrix)
    requires IsMat4(a) && IsMat4(b)
    ensures IsMat4(c)
    ensures IsAffine(a) && IsAffine(b) ==> IsAffine(c)
    ensures IsLinear(a) && IsLinear(b) ==> IsLinear(c)
  {
    seq(4, i requires 0 <= i < 4 =>
      seq(4, j requires 0 <= j < 4 =>
        a[i][0] * b[0][j] + a[i][1] * b[1][j] + a[i][2] * b[2][j] + a[i][3] * b[3][j]))
  }

  /**
   * The homogeneous transform of a point: the first three rows of
   * m * (x, y, z, 1); the fourth coordinate is dropped, not divided by.
   */
  function Apply(m: Matrix, p: Point): Point
    requires IsMat4(m)
  {
    Point(m[0][0] * p.x + m[0][1] * p.y + m[0][2] * p.z + m[0][3],
          m[1][0] * p.x + m[1][1] * p.y + m[1][2] * p.z + m[1][3],
          m[2][0] * p.x + m[2][1] * p.y + m[2][2] * p.z + m[2][3])
  }

  /** The identity is neutral on both sides of the product. */
  lemma MulIdentity(m: Matrix)
    requires IsMat4(m)
    ensures Mul(Identity(), m) == m
    ensures Mul(m, Identity()) == m
  {
    var l, r := Mul(Identity(), m), Mul(m, Identity());
    forall i | 0 <= i < 4
      ensures l[i] == m[i] && r[i] == m[i]
    {
      assert forall j :: 0 <= j < 4 ==> l[i][j] == m[i][j] && r[i][j] == m[i][j];
    }
  }

  /** Applying a product applies the right factor first. */
  lemma ApplyMul(a: Matrix, b: Matrix, p: Point)
    requires IsMat4(a) && IsAffine(b)
    ensures Apply(Mul(a, b), p) == Apply(a, Apply(b, p))
  {
    var q := Apply(b, p);
    var c := Mul(a, b);
    assert Apply(c, p).x == a[0][0] * q.x + a[0][1] * q.y + a[0][2] * q.z + a[0][3];
    assert Apply(c, p).y == a[1][0] * q.x + a[1][1] * q.y + a[1][2] * q.z + a[1][3];
    assert Apply(c, p).z == a[2][0] * q.x + a[2][1] * q.y + a[2][2] * q.z + a[2][3];
  }

  lemma ApplyIdentity(p: Point)
    ensures Apply(Identity(), p) == p
  {
  }
}
