/**
  The matrix arithmetic of the converter, over real numbers: reading a flat
  16-element transform the way numpy's reshape and transpose do, the change of
  camera axes, the homogeneous normalisation, and the rotation and camera
  center written into the SfM project.
 */
module PoseMath {

  predicate IsMatrix(m: seq<seq<real>>, rows: nat, cols: nat) {
    |m| == rows && forall i :: 0 <= i < rows ==> |m[i]| == cols
  }

  type Mat4 = m: seq<seq<real>> | IsMatrix(m, 4, 4)
    witness [[0.0, 0.0, 0.0, 0.0], [0.0, 0.0, 0.0, 0.0], [0.0, 0.0, 0.0, 0.0], [0.0, 0.0, 0.0, 0.0]]

  type Mat3 = m: seq<seq<real>> | IsMatrix(m, 3, 3)
    witness [[0.0, 0.0, 0.0], [0.0, 0.0, 0.0], [0.0, 0.0, 0.0]]

  type Vec3 = v: seq<real> | |v| == 3 witness [0.0, 0.0, 0.0]

  /** The diagonal of the axis change: Y and Z of the camera frame are negated. */
  const AXIS_FLIP: seq<real> := [1.0, -1.0, -1.0, 1.0]

  /** numpy's `reshape(4, 4)` of a flat array: row-major. */
  function Reshape(flat: seq<real>): Mat4
    requires |flat| == 16
  {
    seq(4, i requires 0 <= i < 4 => seq(4, j requires 0 <= j < 4 => flat[4 * i + j]))
  }

  function Transpose(m: Mat4): Mat4 {
    seq(4, i requires 0 <= i < 4 => seq(4, j requires 0 <= j < 4 => m[j][i]))
  }

  function Diag(d: seq<real>): Mat4
    requires |d| == 4
  {
    seq(4, i requires 0 <= i < 4 => seq(4, j requires 0 <= j < 4 => if i == j then d[i] else 0.0))
  }

  /** numpy's `matmul` of two 4x4 matrices. */
  function MatMul(a: Mat4, b: Mat4): Mat4 {
    seq(4, i requires 0 <= i < 4 => seq(4, j requires 0 <= j < 4 =>
      a[i][0] * b[0][j] + a[i][1] * b[1][j] + a[i][2] * b[2][j] + a[i][3] * b[3][j]))
  }

  /** Element-wise division of a matrix by a scalar. */
  function DivideAll(m: Mat4, d: real): Mat4
    requires d != 0.0
  {
    seq(4, i requires 0 <= i < 4 => seq(4, j requires 0 <= j < 4 => m[i][j] / d))
  }

  /** Right multiplication by diag(1, -1, -1, 1). */
  function FlipAxes(m: Mat4): Mat4 {
    MatMul(m, Diag(AXIS_FLIP))
  }

  /** Right multiplication by the flip scales column c by AXIS_FLIP[c]: columns 1 and
      2 change sign, columns 0 and 3 (the translation) stay as they were. */
  lemma FlipAxesEntry(m: Mat4, r: nat, c: nat)
    requires r < 4 && c < 4
    ensures FlipAxes(m)[r][c] == m[r][c] * AXIS_FLIP[c]
    ensures FlipAxes(m)[r][c] == if c == 1 || c == 2 then -m[r][c] else m[r][c]
  {
    var d := Diag(AXIS_FLIP);
    assert d[0][c] == (if c == 0 then 1.0 else 0.0);
    assert d[1][c] == (if c == 1 then -1.0 else 0.0);
    assert d[2][c] == (if c == 2 then -1.0 else 0.0);
    assert d[3][c] == (if c == 3 then 1.0 else 0.0);
  }

  /** Applying the axis change twice gives back the original matrix. */
  lemma FlipAxesInvolution(m: Mat4)
    ensures FlipAxes(FlipAxes(m)) == m
  {
    var f := FlipAxes(FlipAxes(m));
    forall r | 0 <= r < 4
      ensures f[r] == m[r]
    {
      forall c | 0 <= c < 4
        ensures f[r][c] == m[r][c]
      {
        FlipAxesEntry(FlipAxes(m), r, c);
        FlipAxesEntry(m, r, c);
      }
    }
  }

  /** Before the division, entry (r, c) is flat[4c+r] scaled by AXIS_FLIP[c]: the
      column-major read followed by the axis change. */
  lemma FlippedEntries(flat: seq<real>)
    requires |flat| == 16
    ensures forall r, c :: 0 <= r < 4 && 0 <= c < 4 ==>
      FlipAxes(Transpose(Reshape(flat)))[r][c] == flat[4 * c + r] * AXIS_FLIP[c]
  {
    forall r, c | 0 <= r < 4 && 0 <= c < 4
      ensures FlipAxes(Transpose(Reshape(flat)))[r][c] == flat[4 * c + r] * AXIS_FLIP[c]
    {
      FlipAxesEntry(Transpose(Reshape(flat)), r, c);
    }
  }

  /**
    One trajectory record converted into the SfM convention: the flat array read
    column-major (reshape, then transpose), the axes flipped, and the whole matrix
    divided by its bottom-right entry, which before the division is flat[15].
   */
  function ConvertPose(flat: seq<real>): (m: Mat4)
    requires |flat| == 16 && flat[15] != 0.0
    ensures forall r, c :: 0 <= r < 4 && 0 <= c < 4 ==> m[r][c] == flat[4 * c + r] * AXIS_FLIP[c] / flat[15]
  {
    var t := FlipAxes(Transpose(Reshape(flat)));
    FlippedEntries(flat);
    DivideAll(t, t[3][3])
  }

  /** After loading, the bottom-right entry is exactly 1. */
  lemma ConvertPoseNormalised(flat: seq<real>)
    requires |flat| == 16 && flat[15] != 0.0
    ensures ConvertPose(flat)[3][3] == 1.0
  {
    var m := ConvertPose(flat);
    var d := flat[15];
    assert m[3][3] == d * AXIS_FLIP[3] / d;
    assert AXIS_FLIP[3] == 1.0;
    assert d * 1.0 / d == 1.0;
  }

  /** The top-left 3x3 block (numpy's `[0:3, 0:3]`). */
  function Block(m: Mat4): Mat3 {
    seq(3, i requires 0 <= i < 3 => seq(3, j requires 0 <= j < 3 => m[i][j]))
  }

  /** Column 3 without its last entry (numpy's `[0:3, 3]`). */
  function Translation(m: Mat4): Vec3 {
    seq(3, i requires 0 <= i < 3 => m[i][3])
  }

  function Transpose3(b: Mat3): Mat3 {
    seq(3, i requires 0 <= i < 3 => seq(3, j requires 0 <= j < 3 => b[j][i]))
  }

  /** numpy's row-major `flatten` of a 3x3 matrix. */
  function Flatten3(b: Mat3): seq<real> {
    b[0] + b[1] + b[2]
  }

  /** The dot product of (a0, a1, a2) and (b0, b1, b2). */
  function Dot3(a0: real, a1: real, a2: real, b0: real, b1: real, b2: real): real {
    a0 * b0 + a1 * b1 + a2 * b2
  }

  function MatVec3(a: Mat3, v: Vec3): Vec3 {
    seq(3, i requires 0 <= i < 3 => Dot3(a[i][0], a[i][1], a[i][2], v[0], v[1], v[2]))
  }

  function Negate(v: Vec3): Vec3 {
    seq(3, i requires 0 <= i < 3 => -v[i])
  }

  /** The `rotation` of a pose: the transposed rotation block, row-major, 9 values,
      so entry 3i+j is the matrix entry at row j, column i. */
  function Rotation(m: Mat4): (rot: seq<real>)
    ensures |rot| == 9
    ensures forall i, j :: 0 <= i < 3 && 0 <= j < 3 ==> rot[3 * i + j] == m[j][i]
  {
    var b := Transpose3(Block(m));
    assert forall i, j :: 0 <= i < 3 && 0 <= j < 3 ==> b[i][j] == m[j][i];
    Flatten3(b)
  }

  /** The `center` of a pose: the transposed rotation block applied to the negated
      translation column, so entry i is minus the dot product of column i of the
      rotation block with the translation. */
  function Center(m: Mat4): (c: Vec3)
    ensures forall i :: 0 <= i < 3 ==> c[i] == -Dot3(m[0][i], m[1][i], m[2][i], m[0][3], m[1][3], m[2][3])
  {
    MatVec3(Transpose3(Block(m)), Negate(Translation(m)))
  }

  /** The dot product of rows r and s of the rotation block. */
  function RowDot(m: Mat4, r: nat, s: nat): real
    requires r < 3 && s < 3
  {
    Dot3(m[r][0], m[r][1], m[r][2], m[s][0], m[s][1], m[s][2])
  }

  /** The rows of the rotation block are orthonormal: R times its transpose is the identity. */
  predicate Orthonormal(m: Mat4) {
    forall r: nat, s: nat :: r < 3 && s < 3 ==> RowDot(m, r, s) == if r == s then 1.0 else 0.0
  }

  /** The transpose identity a . (-R^T t) == -((R a) . t) for the 3x3 matrix R with
      rows x, y and z, on plain reals. */
  lemma TransposeAdjoint(a0: real, a1: real, a2: real, x0: real, x1: real, x2: real,
                         y0: real, y1: real, y2: real, z0: real, z1: real, z2: real,
                         t0: real, t1: real, t2: real)
    ensures Dot3(a0, a1, a2, -Dot3(x0, y0, z0, t0, t1, t2), -Dot3(x1, y1, z1, t0, t1, t2), -Dot3(x2, y2, z2, t0, t1, t2))
         == -Dot3(t0, t1, t2, Dot3(a0, a1, a2, x0, x1, x2), Dot3(a0, a1, a2, y0, y1, y2), Dot3(a0, a1, a2, z0, z1, z2))
  {
    assert a0 * -(x0 * t0 + y0 * t1 + z0 * t2) + a1 * -(x1 * t0 + y1 * t1 + z1 * t2)
         + a2 * -(x2 * t0 + y2 * t1 + z2 * t2)
        == -(t0 * (a0 * x0 + a1 * x1 + a2 * x2) + t1 * (a0 * y0 + a1 * y1 + a2 * y2)
         + t2 * (a0 * z0 + a1 * z1 + a2 * z2));
  }

  /** Row r of R c + t is zero: with c = -R^T t, row r applied to c is minus the dot
      products of row r with the rows of R, weighted by t, and orthonormality makes
      those dot products pick out t[r]. */
  lemma CenterRow(m: Mat4, r: nat)
    requires Orthonormal(m) && r < 3
    ensures Dot3(m[r][0], m[r][1], m[r][2], Center(m)[0], Center(m)[1], Center(m)[2]) + m[r][3] == 0.0
  {
    var c := Center(m);
    var d0, d1, d2 := RowDot(m, r, 0), RowDot(m, r, 1), RowDot(m, r, 2);
    assert d0 == (if r == 0 then 1.0 else 0.0);
    assert d1 == (if r == 1 then 1.0 else 0.0);
    assert d2 == (if r == 2 then 1.0 else 0.0);
    TransposeAdjoint(m[r][0], m[r][1], m[r][2], m[0][0], m[0][1], m[0][2], m[1][0], m[1][1], m[1][2],
                     m[2][0], m[2][1], m[2][2], m[0][3], m[1][3], m[2][3]);
  }

  /** For an orthonormal rotation block R and translation t, the recovered center c
      satisfies R c + t == 0: it is the camera position the extrinsic matrix encodes. */
  lemma CenterInvertsExtrinsic(m: Mat4)
    requires Orthonormal(m)
    ensures forall r :: 0 <= r < 3 ==> MatVec3(Block(m), Center(m))[r] + m[r][3] == 0.0
  {
    forall r | 0 <= r < 3
      ensures MatVec3(Block(m), Center(m))[r] + m[r][3] == 0.0
    {
      CenterRow(m, r);
    }
  }
}
