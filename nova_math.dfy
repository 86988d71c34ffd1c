/** Model of Nova/nova_math.c: four-component vectors and row-major 4x4
    matrices. Every C function there writes its whole result through an
    out-parameter, so each one is a function here. The source computes in
    `float`; this model computes in `real`, without rounding. */
module NovaMath {

  /** struct Vector: x, y, z and the homogeneous weight w. */
  datatype Vector = Vector(x: real, y: real, z: real, w: real)

  predicate Is4x4(e: seq<seq<real>>) {
    |e| == 4 && forall i :: 0 <= i < 4 ==> |e[i]| == 4
  }

  /** struct Matrix: float e[4][4], row-major, e[i][j] is row i, column j. */
  type Matrix = e: seq<seq<real>> | Is4x4(e)
    witness [[0.0, 0.0, 0.0, 0.0], [0.0, 0.0, 0.0, 0.0], [0.0, 0.0, 0.0, 0.0], [0.0, 0.0, 0.0, 0.0]]

  /** Kronecker delta, the entries of the identity. */
  function Delta(i: int, j: int): real {
    if i == j then 1.0 else 0.0
  }

  /** The matrix `m` with the single entry e[i][j] replaced by `v`. */
  function MatSet(m: Matrix, i: nat, j: nat, v: real): (r: Matrix)
    requires i < 4 && j < 4
    ensures r[i][j] == v
    ensures forall k, l :: 0 <= k < 4 && 0 <= l < 4 && (k != i || l != j) ==> r[k][l] == m[k][l]
  {
    m[i := m[i][j := v]]
  }

  // ---------------------------------------------------------------------
  // Vectors
  // ---------------------------------------------------------------------

  /** VecCopy: a memcpy of the whole struct. */
  function VecCopy(v: Vector): (d: Vector)
    ensures d.x == v.x && d.y == v.y && d.z == v.z && d.w == v.w
  {
    v
  }

  /** VecAdd adds all four components, w included; VecSub undoes it. */
  function VecAdd(a: Vector, b: Vector): (r: Vector)
    ensures VecSub(r, b) == a && VecSub(r, a) == b
  {
    Vector(a.x + b.x, a.y + b.y, a.z + b.z, a.w + b.w)
  }

  /** VecSub: the vector that, added back to `b`, gives `a`. */
  function VecSub(a: Vector, b: Vector): (r: Vector)
    ensures r.x + b.x == a.x && r.y + b.y == a.y && r.z + b.z == a.z && r.w + b.w == a.w
  {
    Vector(a.x - b.x, a.y - b.y, a.z - b.z, a.w - b.w)
  }

  /** VecDot4: the dot product over all four components. */
  function VecDot4(a: Vector, b: Vector): (r: real)
    ensures a == b ==> r >= 0.0
  {
    a.x * b.x + a.y * b.y + a.z * b.z + a.w * b.w
  }

  /** VecDot3: the dot product of x, y and z; it ignores both weights. */
  function VecDot3(a: Vector, b: Vector): (r: real)
    ensures r == VecDot4(a.(w := 0.0), b) && r == VecDot4(a, b.(w := 0.0))
  {
    a.x * b.x + a.y * b.y + a.z * b.z
  }

  /** VecPerp2: the 2D perpendicular (-y, x) with z and w cleared. It is
      orthogonal to `v`, as long as `v` is in the xy plane, and turned a
      quarter counter-clockwise: the cross product of +z with `v`. */
  function VecPerp2(v: Vector): (r: Vector)
    ensures r.z == 0.0 && r.w == 0.0
    ensures VecDot3(r, v) == 0.0
    ensures r.x * r.x + r.y * r.y == v.x * v.x + v.y * v.y
    ensures r == VecCross3(Vector(0.0, 0.0, 1.0, 0.0), v)
  {
    Vector(-v.y, v.x, 0.0, 0.0)
  }

  /** VecCross3: the 3D cross product with w set to 0; it is orthogonal to
      both inputs. */
  function VecCross3(a: Vector, b: Vector): (r: Vector)
    ensures r.w == 0.0
    ensures VecDot3(r, a) == 0.0 && VecDot3(r, b) == 0.0
  {
    Vector(a.y * b.z - a.z * b.y,
           a.z * b.x - a.x * b.z,
           a.x * b.y - a.y * b.x,
           0.0)
  }

  /** Applying VecPerp2 twice is a half turn in the xy plane. */
  lemma PerpTwiceIsHalfTurn(v: Vector)
    ensures VecPerp2(VecPerp2(v)) == Vector(-v.x, -v.y, 0.0, 0.0)
  {
  }

  /** Swapping the operands of VecCross3 negates x, y and z. */
  lemma CrossAnticommutes(a: Vector, b: Vector)
    ensures VecCross3(b, a) == Vector(-VecCross3(a, b).x, -VecCross3(a, b).y, -VecCross3(a, b).z, 0.0)
  {
  }

  // ---------------------------------------------------------------------
  // Matrices
  // ---------------------------------------------------------------------

  /** MatSetIdentity. */
  function MatSetIdentity(): (m: Matrix)
    ensures forall i, j :: 0 <= i < 4 && 0 <= j < 4 ==> m[i][j] == Delta(i, j)
  {
    [[1.0, 0.0, 0.0, 0.0],
     [0.0, 1.0, 0.0, 0.0],
     [0.0, 0.0, 1.0, 0.0],
     [0.0, 0.0, 0.0, 1.0]]
  }

  /** MatSetTranslate: the identity with the offset in column 3; a rigid
      transform whose translation column is (x, y, z). */
  function MatSetTranslate(x: real, y: real, z: real): (m: Matrix)
    ensures IsRigid(m)
    ensures m[0][3] == x && m[1][3] == y && m[2][3] == z
  {
    [[1.0, 0.0, 0.0, x],
     [0.0, 1.0, 0.0, y],
     [0.0, 0.0, 1.0, z],
     [0.0, 0.0, 0.0, 1.0]]
  }

  /** A translation moves a point (w = 1) by (x, y, z) and leaves a
      direction (w = 0) where it is; in general it adds w times the offset. */
  lemma TranslateMovesPoints(x: real, y: real, z: real, v: Vector)
    ensures MatVecMul(MatSetTranslate(x, y, z), v) == Vector(v.x + x * v.w, v.y + y * v.w, v.z + z * v.w, v.w)
  {
    var m := MatSetTranslate(x, y, z);
    assert m[0] == [1.0, 0.0, 0.0, x] && m[1] == [0.0, 1.0, 0.0, y];
    assert m[2] == [0.0, 0.0, 1.0, z] && m[3] == [0.0, 0.0, 0.0, 1.0];
    var r := MatVecMul(m, v);
    assert r.x == 1.0 * v.x + 0.0 * v.y + 0.0 * v.z + x * v.w;
    assert r.y == 0.0 * v.x + 1.0 * v.y + 0.0 * v.z + y * v.w;
    assert r.z == 0.0 * v.x + 0.0 * v.y + 1.0 * v.z + z * v.w;
    assert r.w == 0.0 * v.x + 0.0 * v.y + 0.0 * v.z + 1.0 * v.w;
  }

  /** MatCopy: a memcpy of the sixteen entries. */
  function MatCopy(m: Matrix): (d: Matrix)
    ensures forall i, j :: 0 <= i < 4 && 0 <= j < 4 ==> d[i][j] == m[i][j]
  {
    m
  }

  /** MatVecMul: r = m * v, each component the dot product of a row with v. */
  function MatVecMul(m: Matrix, v: Vector): Vector {
    Vector(RowDot(m, 0, v), RowDot(m, 1, v), RowDot(m, 2, v), RowDot(m, 3, v))
  }

  /** MatVecMul is linear: the image of a sum is the sum of the images,
      w included. */
  lemma MatVecMulLinear(m: Matrix, a: Vector, b: Vector)
    ensures MatVecMul(m, VecAdd(a, b)) == VecAdd(MatVecMul(m, a), MatVecMul(m, b))
  {
    RowDotLinear(m, 0, a, b);
    RowDotLinear(m, 1, a, b);
    RowDotLinear(m, 2, a, b);
    RowDotLinear(m, 3, a, b);
  }

  /** One row of MatVecMulLinear. */
  lemma RowDotLinear(m: Matrix, i: nat, a: Vector, b: Vector)
    requires i < 4
    ensures RowDot(m, i, VecAdd(a, b)) == RowDot(m, i, a) + RowDot(m, i, b)
  {
    var r := m[i];
    assert RowDot(m, i, VecAdd(a, b))
        == r[0] * (a.x + b.x) + r[1] * (a.y + b.y) + r[2] * (a.z + b.z) + r[3] * (a.w + b.w);
  }

  /** Entry (i, j) of MatMul: row i of `a` times column j of `b`. */
  function MulEntry(a: Matrix, b: Matrix, i: nat, j: nat): real
    requires i < 4 && j < 4
  {
    a[i][0] * b[0][j] + a[i][1] * b[1][j] + a[i][2] * b[2][j] + a[i][3] * b[3][j]
  }

  /** MatMul: the double loop fills each r.e[i][j] independently. */
  function MatMul(a: Matrix, b: Matrix): Matrix {
    seq(4, i requires 0 <= i < 4 => seq(4, j requires 0 <= j < 4 => MulEntry(a, b, i, j)))
  }

  /** MatTranspose: r.e[i][j] = m.e[j][i]. */
  function MatTranspose(m: Matrix): (r: Matrix)
    ensures forall i, j :: 0 <= i < 4 && 0 <= j < 4 ==> r[i][j] == m[j][i]
  {
    [[m[0][0], m[1][0], m[2][0], m[3][0]],
     [m[0][1], m[1][1], m[2][1], m[3][1]],
     [m[0][2], m[1][2], m[2][2], m[3][2]],
     [m[0][3], m[1][3], m[2][3], m[3][3]]]
  }

  /** MatTransposeInner: transposes the upper-left 3x3 block, keeps the
      first three entries of column 3 and copies row 3 whole (the source
      copies it with VecCopy, viewing the row as a Vector). */
  function MatTransposeInner(m: Matrix): (r: Matrix)
    ensures forall i, j :: 0 <= i < 3 && 0 <= j < 3 ==> r[i][j] == m[j][i]
    ensures forall i :: 0 <= i < 3 ==> r[i][3] == m[i][3]
    ensures r[3] == m[3]
  {
    [[m[0][0], m[1][0], m[2][0], m[0][3]],
     [m[0][1], m[1][1], m[2][1], m[1][3]],
     [m[0][2], m[1][2], m[2][2], m[2][3]],
     m[3]]
  }

  /** MatInvert is an empty stub: the output matrix keeps whatever it held. */
  function MatInvert(m: Matrix, out: Matrix): (r: Matrix)
    ensures forall i, j :: 0 <= i < 4 && 0 <= j < 4 ==> r[i][j] == out[i][j]
  {
    out
  }

  /** MatInvertRigidTransform as written: after MatTransposeInner it stores
      into r.e[0][3] three times, so the last store, -m.e[2][3], wins and
      r.e[1][3], r.e[2][3] keep m's values; row 3 is copied again. */
  function MatInvertRigidTransform(m: Matrix): (r: Matrix)
    ensures forall i, j :: 0 <= i < 3 && 0 <= j < 3 ==> r[i][j] == m[j][i]
    ensures r[0][3] == -m[2][3] && r[1][3] == m[1][3] && r[2][3] == m[2][3]
    ensures r[3] == m[3]
  {
    var t := MatTransposeInner(m);
    var t := MatSet(t, 0, 3, -m[0][3]);
    var t := MatSet(t, 0, 3, -m[1][3]);
    var t := MatSet(t, 0, 3, -m[2][3]);
    t[3 := m[3]]
  }

  /** Dot product of columns i and j of the upper-left 3x3 block. */
  function ColumnDot3(m: Matrix, i: nat, j: nat): real
    requires i < 3 && j < 3
  {
    m[0][i] * m[0][j] + m[1][i] * m[1][j] + m[2][i] * m[2][j]
  }

  /** A rigid transform: an orthonormal upper-left block R (R^T R = I), any
      translation t in column 3, and bottom row (0, 0, 0, 1). */
  predicate IsRigid(m: Matrix) {
    && (forall i, j :: 0 <= i < 3 && 0 <= j < 3 ==> ColumnDot3(m, i, j) == Delta(i, j))
    && m[3] == [0.0, 0.0, 0.0, 1.0]
  }

  /** The inverse MatInvertRigidTransform evidently means to build: the
      inner transpose R^T, then column 3 set to -R^T t, row 3 copied. */
  function RigidInverse(m: Matrix): (r: Matrix)
    ensures forall i, j :: 0 <= i < 3 && 0 <= j < 3 ==> r[i][j] == m[j][i]
    ensures r[3] == m[3]
  {
    var t := MatTransposeInner(m);
    var t := MatSet(t, 0, 3, -(m[0][0] * m[0][3] + m[1][0] * m[1][3] + m[2][0] * m[2][3]));
    var t := MatSet(t, 1, 3, -(m[0][1] * m[0][3] + m[1][1] * m[1][3] + m[2][1] * m[2][3]));
    MatSet(t, 2, 3, -(m[0][2] * m[0][3] + m[1][2] * m[1][3] + m[2][2] * m[2][3]))
  }

  /** The PI of nova_math.h. */
  const PI: real := 3.14159265358979323846

  /** Half of a field of view given in degrees, in radians: the argument
      MatSetPerspective passes to tanf. */
  function HalfAngle(fov: real): real {
    fov * PI / 360.0
  }

  /** Perspective projection built by MatSetPerspective. `tan` stands for
      the C library's tanf, which the model does not interpret; the caller
      must not pass a field of view whose tangent is 0 (the source would
      divide by it). The x and y scales are the reciprocals of the tangents
      of the half fields of view, the depth row maps z to
      (z - n) / (f - n) for a point, and the projected w is the negated
      view-space z. */
  function MatSetPerspective(tan: real -> real, hFov: real, vFov: real, n: real, f: real): (m: Matrix)
    requires n != 0.0 && f != n
    requires tan(HalfAngle(hFov)) != 0.0 && tan(HalfAngle(vFov)) != 0.0
    ensures m[0][0] * tan(HalfAngle(hFov)) == 1.0
    ensures m[1][1] * tan(HalfAngle(vFov)) == 1.0
    ensures m[2][2] * (f - n) == 1.0 && m[2][3] * (f - n) == -n
    ensures m[0][1] == m[0][2] == m[0][3] == m[1][0] == m[1][2] == m[1][3] == m[2][0] == m[2][1] == 0.0
    ensures forall v :: MatVecMul(m, v).w == -v.z
  {
    var r := n * tan(HalfAngle(hFov));
    var t := n * tan(HalfAngle(vFov));
    ReciprocalScale(n, tan(HalfAngle(hFov)));
    ReciprocalScale(n, tan(HalfAngle(vFov)));
    [[n / r, 0.0, 0.0, 0.0],
     [0.0, n / t, 0.0, 0.0],
     [0.0, 0.0, 1.0 / (f - n), -n / (f - n)],
     [0.0, 0.0, -1.0, 0.0]]
  }

  /** n / (n * t) is the reciprocal of t. */
  lemma ReciprocalScale(n: real, t: real)
    requires n != 0.0 && t != 0.0
    ensures (n / (n * t)) * t == 1.0
  {
  }

  /** What the projection does to a point: x and y are divided by the
      tangents of the half fields of view, and with w = 1 its z is 0 on
      the near plane and 1 on the far plane (before the divide by w). */
  lemma PerspectiveMaps(tan: real -> real, hFov: real, vFov: real, n: real, f: real, m: Matrix, v: Vector)
    requires n != 0.0 && f != n
    requires tan(HalfAngle(hFov)) != 0.0 && tan(HalfAngle(vFov)) != 0.0
    requires m == MatSetPerspective(tan, hFov, vFov, n, f)
    ensures MatVecMul(m, v).x * tan(HalfAngle(hFov)) == v.x
    ensures MatVecMul(m, v).y * tan(HalfAngle(vFov)) == v.y
    ensures v.w == 1.0 ==> MatVecMul(m, v).z * (f - n) == v.z - n
  {
    ScaledRows(tan, hFov, vFov, m, v);
    if v.w == 1.0 {
      DepthRow(n, f, m, v);
    }
  }

  /** Rows 0 and 1 of a matrix whose off-diagonal entries there are 0 and
      whose diagonal entries are the reciprocals of the tangents of half
      the fields of view: multiplying back by the tangent gives the input. */
  lemma ScaledRows(tan: real -> real, hFov: real, vFov: real, m: Matrix, v: Vector)
    requires m[0][1] == m[0][2] == m[0][3] == m[1][0] == m[1][2] == m[1][3] == 0.0
    requires m[0][0] * tan(HalfAngle(hFov)) == 1.0 && m[1][1] * tan(HalfAngle(vFov)) == 1.0
    ensures MatVecMul(m, v).x * tan(HalfAngle(hFov)) == v.x
    ensures MatVecMul(m, v).y * tan(HalfAngle(vFov)) == v.y
  {
    var p := MatVecMul(m, v);
    assert p.x == m[0][0] * v.x;
    assert p.y == m[1][1] * v.y;
    assert p.x * tan(HalfAngle(hFov)) == (m[0][0] * tan(HalfAngle(hFov))) * v.x;
    assert p.y * tan(HalfAngle(vFov)) == (m[1][1] * tan(HalfAngle(vFov))) * v.y;
  }

  /** Row 2 of the perspective matrix applied to a point (w = 1),
      multiplied back by f - n. */
  lemma DepthRow(n: real, f: real, m: Matrix, v: Vector)
    requires m[2][0] == m[2][1] == 0.0 && v.w == 1.0
    requires m[2][2] * (f - n) == 1.0 && m[2][3] * (f - n) == -n
    ensures MatVecMul(m, v).z * (f - n) == v.z - n
  {
    var p := MatVecMul(m, v);
    assert p.z == m[2][2] * v.z + m[2][3];
    assert p.z * (f - n) == (m[2][2] * (f - n)) * v.z + m[2][3] * (f - n);
  }

  // ---------------------------------------------------------------------
  // Algebra of the kernel
  // ---------------------------------------------------------------------

  /** Subtracting what was added gives back the original vector, w included. */
  lemma SubUndoesAdd(a: Vector, b: Vector)
    ensures VecSub(VecAdd(a, b), b) == a
  {
  }

  /** Transposing twice is the identity. */
  lemma TransposeInvolution(m: Matrix)
    ensures MatTranspose(MatTranspose(m)) == m
  {
    var r := MatTranspose(MatTranspose(m));
    assert forall i :: 0 <= i < 4 ==> r[i] == m[i];
  }

  /** The inner transpose is an involution too. */
  lemma TransposeInnerInvolution(m: Matrix)
    ensures MatTransposeInner(MatTransposeInner(m)) == m
  {
    var r := MatTransposeInner(MatTransposeInner(m));
    assert forall i :: 0 <= i < 4 ==> r[i] == m[i];
  }

  /** The identity matrix leaves every vector unchanged. */
  lemma IdentityFixesVectors(v: Vector)
    ensures MatVecMul(MatSetIdentity(), v) == v
  {
  }

  /** The identity is a unit of MatMul on both sides. */
  lemma IdentityIsUnit(m: Matrix)
    ensures MatMul(MatSetIdentity(), m) == m
    ensures MatMul(m, MatSetIdentity()) == m
  {
    var id := MatSetIdentity();
    var l, r := MatMul(id, m), MatMul(m, id);
    forall i | 0 <= i < 4 ensures l[i] == m[i] && r[i] == m[i] {
      assert forall j :: 0 <= j < 4 ==> l[i][j] == m[i][j];
      assert forall j :: 0 <= j < 4 ==> r[i][j] == m[i][j];
    }
  }

  /** MatMul is composition: multiplying by a product applies `b` first,
      then `a`. */
  lemma MatMulIsComposition(a: Matrix, b: Matrix, v: Vector)
    ensures MatVecMul(MatMul(a, b), v) == MatVecMul(a, MatVecMul(b, v))
  {
    var ab, bv := MatMul(a, b), MatVecMul(b, v);
    CompositionRow(a, b, v, 0);
    CompositionRow(a, b, v, 1);
    CompositionRow(a, b, v, 2);
    CompositionRow(a, b, v, 3);
  }

  /** Row `i` of `m` times `v`: component `i` of MatVecMul(m, v). */
  function RowDot(m: Matrix, i: nat, v: Vector): real
    requires i < 4
  {
    Dot4(m[i][0], m[i][1], m[i][2], m[i][3], v.x, v.y, v.z, v.w)
  }

  /** p0 * q0 + p1 * q1 + p2 * q2 + p3 * q3. */
  function Dot4(p0: real, p1: real, p2: real, p3: real, q0: real, q1: real, q2: real, q3: real): real {
    p0 * q0 + p1 * q1 + p2 * q2 + p3 * q3
  }

  /** Row `i` of the composition law. */
  lemma CompositionRow(a: Matrix, b: Matrix, v: Vector, i: nat)
    requires i < 4
    ensures RowDot(MatMul(a, b), i, v) == RowDot(a, i, MatVecMul(b, v))
  {
    var ab, bv := MatMul(a, b), MatVecMul(b, v);
    assert ab[i][0] == MulEntry(a, b, i, 0) && ab[i][1] == MulEntry(a, b, i, 1);
    assert ab[i][2] == MulEntry(a, b, i, 2) && ab[i][3] == MulEntry(a, b, i, 3);
    RowTimesProduct(a[i][0], a[i][1], a[i][2], a[i][3],
                    b[0][0], b[0][1], b[0][2], b[0][3], b[1][0], b[1][1], b[1][2], b[1][3],
                    b[2][0], b[2][1], b[2][2], b[2][3], b[3][0], b[3][1], b[3][2], b[3][3],
                    v.x, v.y, v.z, v.w, ab[i][0], ab[i][1], ab[i][2], ab[i][3], bv.x, bv.y, bv.z, bv.w);
  }

  /** One row of the composition law, (row * b) * v == row * (b * v), on
      plain numbers: row (a0 .. a3), b's entries bij, v = (x, y, z, w), the
      row of the product c0 .. c3 and b * v = (d0 .. d3). The sum over the
      row is split in two halves to keep each step small. */
  lemma RowTimesProduct(a0: real, a1: real, a2: real, a3: real,
                        b00: real, b01: real, b02: real, b03: real, b10: real, b11: real, b12: real, b13: real,
                        b20: real, b21: real, b22: real, b23: real, b30: real, b31: real, b32: real, b33: real,
                        x: real, y: real, z: real, w: real,
                        c0: real, c1: real, c2: real, c3: real, d0: real, d1: real, d2: real, d3: real)
    requires c0 == a0 * b00 + a1 * b10 + a2 * b20 + a3 * b30 && c1 == a0 * b01 + a1 * b11 + a2 * b21 + a3 * b31
    requires c2 == a0 * b02 + a1 * b12 + a2 * b22 + a3 * b32 && c3 == a0 * b03 + a1 * b13 + a2 * b23 + a3 * b33
    requires d0 == b00 * x + b01 * y + b02 * z + b03 * w && d1 == b10 * x + b11 * y + b12 * z + b13 * w
    requires d2 == b20 * x + b21 * y + b22 * z + b23 * w && d3 == b30 * x + b31 * y + b32 * z + b33 * w
    ensures Dot4(c0, c1, c2, c3, x, y, z, w) == Dot4(a0, a1, a2, a3, d0, d1, d2, d3)
  {
    var e0, e1, e2, e3 := a0 * b00 + a1 * b10, a0 * b01 + a1 * b11, a0 * b02 + a1 * b12, a0 * b03 + a1 * b13;
    var f0, f1, f2, f3 := a2 * b20 + a3 * b30, a2 * b21 + a3 * b31, a2 * b22 + a3 * b32, a2 * b23 + a3 * b33;
    HalfRow(a0, a1, b00, b01, b02, b03, b10, b11, b12, b13, x, y, z, w, e0, e1, e2, e3, d0, d1);
    HalfRow(a2, a3, b20, b21, b22, b23, b30, b31, b32, b33, x, y, z, w, f0, f1, f2, f3, d2, d3);
    SplitProduct(c0, e0, f0, x);
    SplitProduct(c1, e1, f1, y);
    SplitProduct(c2, e2, f2, z);
    SplitProduct(c3, e3, f3, w);
  }

  /** RowTimesProduct for two entries of the row. */
  lemma HalfRow(a0: real, a1: real, b00: real, b01: real, b02: real, b03: real, b10: real, b11: real, b12: real, b13: real,
                x: real, y: real, z: real, w: real, e0: real, e1: real, e2: real, e3: real, d0: real, d1: real)
    requires e0 == a0 * b00 + a1 * b10 && e1 == a0 * b01 + a1 * b11
    requires e2 == a0 * b02 + a1 * b12 && e3 == a0 * b03 + a1 * b13
    requires d0 == b00 * x + b01 * y + b02 * z + b03 * w && d1 == b10 * x + b11 * y + b12 * z + b13 * w
    ensures e0 * x + e1 * y + e2 * z + e3 * w == a0 * d0 + a1 * d1
  {
  }

  /** (e + f) * k == e * k + f * k. */
  lemma SplitProduct(c: real, e: real, f: real, k: real)
    requires c == e + f
    ensures c * k == e * k + f * k
  {
  }

  /** Transposition reverses a product. */
  lemma TransposeOfProduct(a: Matrix, b: Matrix)
    ensures MatTranspose(MatMul(a, b)) == MatMul(MatTranspose(b), MatTranspose(a))
  {
    var l, r := MatTranspose(MatMul(a, b)), MatMul(MatTranspose(b), MatTranspose(a));
    forall i, j | 0 <= i < 4 && 0 <= j < 4 ensures l[i][j] == r[i][j] {
      TransposeOfProductEntry(a, b, i, j);
    }
    forall i | 0 <= i < 4 ensures l[i] == r[i] {
    }
  }

  /** Entry (i, j) of the transposed product, as a sum of the same terms. */
  lemma TransposeOfProductEntry(a: Matrix, b: Matrix, i: nat, j: nat)
    requires i < 4 && j < 4
    ensures MatTranspose(MatMul(a, b))[i][j] == MatMul(MatTranspose(b), MatTranspose(a))[i][j]
  {
    var ta, tb := MatTranspose(a), MatTranspose(b);
    assert MatTranspose(MatMul(a, b))[i][j] == MulEntry(a, b, j, i);
    assert MatMul(tb, ta)[i][j] == MulEntry(tb, ta, i, j);
    assert tb[i][0] == b[0][i] && tb[i][1] == b[1][i] && tb[i][2] == b[2][i] && tb[i][3] == b[3][i];
    assert ta[0][j] == a[j][0] && ta[1][j] == a[j][1] && ta[2][j] == a[j][2] && ta[3][j] == a[j][3];
  }

  // ---------------------------------------------------------------------
  // MatInvertRigidTransform: as written versus as intended
  // ---------------------------------------------------------------------

  /** As written, MatInvertRigidTransform does not undo even a pure
      translation: translating the origin by (1, 2, 3) and applying the
      result gives (-2, 4, 6, 1), not the origin. */
  lemma InvertRigidAsWrittenFailsOnTranslation()
    ensures IsRigid(MatSetTranslate(1.0, 2.0, 3.0))
    ensures MatVecMul(MatInvertRigidTransform(MatSetTranslate(1.0, 2.0, 3.0)),
                      MatVecMul(MatSetTranslate(1.0, 2.0, 3.0), Vector(0.0, 0.0, 0.0, 1.0)))
         == Vector(-2.0, 4.0, 6.0, 1.0)
  {
    var m := MatSetTranslate(1.0, 2.0, 3.0);
    assert m[0] == [1.0, 0.0, 0.0, 1.0] && m[1] == [0.0, 1.0, 0.0, 2.0];
    assert m[2] == [0.0, 0.0, 1.0, 3.0] && m[3] == [0.0, 0.0, 0.0, 1.0];
    forall i, j | 0 <= i < 3 && 0 <= j < 3 ensures ColumnDot3(m, i, j) == Delta(i, j) {
    }
    var p := MatVecMul(m, Vector(0.0, 0.0, 0.0, 1.0));
    assert p == Vector(1.0, 2.0, 3.0, 1.0);
    var r := MatInvertRigidTransform(m);
    assert r[0] == [1.0, 0.0, 0.0, -3.0] && r[1] == [0.0, 1.0, 0.0, 2.0];
    assert r[2] == [0.0, 0.0, 1.0, 3.0] && r[3] == [0.0, 0.0, 0.0, 1.0];
  }

  /** Entry (i, j) of RigidInverse(m) * m is the identity's. */
  lemma RigidInverseEntry(m: Matrix, i: nat, j: nat)
    requires IsRigid(m) && i < 4 && j < 4
    ensures MulEntry(RigidInverse(m), m, i, j) == Delta(i, j)
  {
    var r := RigidInverse(m);
    if i < 3 && j < 3 {
      assert ColumnDot3(m, i, j) == Delta(i, j);
    }
  }

  /** The corrected inverse is a left inverse of every rigid transform. */
  lemma RigidInverseIsLeftInverse(m: Matrix)
    requires IsRigid(m)
    ensures MatMul(RigidInverse(m), m) == MatSetIdentity()
  {
    var p, id := MatMul(RigidInverse(m), m), MatSetIdentity();
    forall i | 0 <= i < 4 ensures p[i] == id[i] {
      forall j | 0 <= j < 4 ensures p[i][j] == id[i][j] {
        RigidInverseEntry(m, i, j);
      }
    }
  }

  /** Hence the corrected inverse undoes a rigid transform on every vector. */
  lemma RigidInverseUndoes(m: Matrix, v: Vector)
    requires IsRigid(m)
    ensures MatVecMul(RigidInverse(m), MatVecMul(m, v)) == v
  {
    MatMulIsComposition(RigidInverse(m), m, v);
    RigidInverseIsLeftInverse(m);
    IdentityFixesVectors(v);
  }
}
