/**
 * Dense real vectors and matrices, the exact-arithmetic counterpart of the
 * numpy arrays the visualisation script works with. A matrix is a sequence
 * of rows; `IsMat(m, r, c)` says it is rectangular with shape (r, c).
 */
module LinAlg {

  type Vec = seq<real>
  type Mat = seq<seq<real>>

  predicate IsMat(m: Mat, rows: nat, cols: nat) {
    |m| == rows && forall i :: 0 <= i < rows ==> |m[i]| == cols
  }

  /** Every row has the same length, as for any 2-D numpy array. */
  predicate Rectangular(m: Mat) {
    |m| == 0 || IsMat(m, |m|, |m[0]|)
  }

  function Cols(m: Mat): nat {
    if |m| == 0 then 0 else |m[0]|
  }

  function Delta(i: int, j: int): real {
    if i == j then 1.0 else 0.0
  }

  /** The n-by-n identity, `np.eye(n)`. */
  function Identity(n: nat): (e: Mat)
    ensures IsMat(e, n, n)
    ensures forall i, j :: 0 <= i < n && 0 <= j < n ==> e[i][j] == Delta(i, j)
  {
    seq(n, i => seq(n, j => Delta(i, j)))
  }

  /** The i-th standard basis vector of length n. */
  function Unit(n: nat, i: int): (e: Vec)
    ensures |e| == n
  {
    seq(n, j => Delta(i, j))
  }

  function Dot(u: Vec, v: Vec): real
    requires |u| == |v|
    decreases |u|
  {
    if |u| == 0 then 0.0 else u[0] * v[0] + Dot(u[1..], v[1..])
  }

  function Add(u: Vec, v: Vec): (w: Vec)
    requires |u| == |v|
    ensures |w| == |u|
  {
    seq(|u|, i requires 0 <= i < |u| => u[i] + v[i])
  }

  function Sub(u: Vec, v: Vec): (w: Vec)
    requires |u| == |v|
    ensures |w| == |u|
  {
    seq(|u|, i requires 0 <= i < |u| => u[i] - v[i])
  }

  function Scale(s: real, v: Vec): (w: Vec)
    ensures |w| == |v|
  {
    seq(|v|, i requires 0 <= i < |v| => s * v[i])
  }

  /** Matrix times column vector, `m @ v`. */
  function MatVec(m: Mat, v: Vec): (w: Vec)
    requires IsMat(m, |m|, |v|)
    ensures |w| == |m|
  {
    seq(|m|, i requires 0 <= i < |m| => Dot(m[i], v))
  }

  function Column(m: Mat, k: nat): (c: Vec)
    requires IsMat(m, |m|, Cols(m)) && k < Cols(m)
    ensures |c| == |m|
  {
    seq(|m|, i requires 0 <= i < |m| => m[i][k])
  }

  /** Matrix product `a @ b` of an (n, p) and a (p, q) matrix. */
  function MatMul(a: Mat, b: Mat): (c: Mat)
    requires IsMat(b, |b|, Cols(b)) && IsMat(a, |a|, |b|)
    ensures IsMat(c, |a|, Cols(b))
  {
    seq(|a|, i requires 0 <= i < |a| =>
      seq(Cols(b), k requires 0 <= k < Cols(b) => Dot(a[i], Column(b, k))))
  }

  // ---------------------------------------------------------------------
  // Fixed-size products of 3-D geometry, written out term by term.

  function Dot3(u: Vec, v: Vec): real
    requires |u| == 3 && |v| == 3
  {
    u[0] * v[0] + u[1] * v[1] + u[2] * v[2]
  }

  /** Determinant of a 3x3 matrix, expanded along the first row. */
  function Det3(m: Mat): real
    requires IsMat(m, 3, 3)
  {
    m[0][0] * (m[1][1] * m[2][2] - m[1][2] * m[2][1])
    - m[0][1] * (m[1][0] * m[2][2] - m[1][2] * m[2][0])
    + m[0][2] * (m[1][0] * m[2][1] - m[1][1] * m[2][0])
  }

  /** `m @ v` for a 3x3 matrix. */
  function MatVec3(m: Mat, v: Vec): (w: Vec)
    requires IsMat(m, 3, 3) && |v| == 3
    ensures |w| == 3
  {
    seq(3, i requires 0 <= i < 3 => Dot3(m[i], v))
  }

  /** `a @ b` for 3x3 matrices. */
  function MatMul3(a: Mat, b: Mat): (c: Mat)
    requires IsMat(a, 3, 3) && IsMat(b, 3, 3)
    ensures IsMat(c, 3, 3)
  {
    seq(3, i requires 0 <= i < 3 =>
      seq(3, k requires 0 <= k < 3 => a[i][0] * b[0][k] + a[i][1] * b[1][k] + a[i][2] * b[2][k]))
  }

  function Transpose3(m: Mat): (t: Mat)
    requires IsMat(m, 3, 3)
    ensures IsMat(t, 3, 3)
  {
    seq(3, i requires 0 <= i < 3 => seq(3, j requires 0 <= j < 3 => m[j][i]))
  }

  /** `x @ h` for a 4x4 matrix and a 4-vector. */
  function MatVec4(x: Mat, h: Vec): (y: Vec)
    requires IsMat(x, 4, 4) && |h| == 4
    ensures |y| == 4
  {
    seq(4, i requires 0 <= i < 4 => x[i][0] * h[0] + x[i][1] * h[1] + x[i][2] * h[2] + x[i][3] * h[3])
  }

  /** (e - s a) . v = e . v - s (a . v) */
  lemma DotSubScale3(e: Vec, s: real, a: Vec, v: Vec)
    requires |e| == 3 && |a| == 3 && |v| == 3
    ensures Dot3(Sub(e, Scale(s, a)), v) == Dot3(e, v) - s * Dot3(a, v)
  {
  }

  /** Moving v by -s a and then by s a returns v. */
  lemma SubScaleUndo(v: Vec, s: real, a: Vec)
    requires |v| == 3 && |a| == 3
    ensures Sub(Sub(v, Scale(s, a)), Scale(-s, a)) == v
  {
    Vec3Ext(Sub(Sub(v, Scale(s, a)), Scale(-s, a)), v);
  }

  /** u . (s v) = s (u . v) */
  lemma DotScale3(u: Vec, s: real, v: Vec)
    requires |u| == 3 && |v| == 3
    ensures Dot3(u, Scale(s, v)) == s * Dot3(u, v)
  {
    var w := Scale(s, v);
    assert w[0] == s * v[0] && w[1] == s * v[1] && w[2] == s * v[2];
    ScalarFactor(u[0], u[1], u[2], v[0], v[1], v[2], s);
  }

  lemma ScalarFactor(u0: real, u1: real, u2: real, v0: real, v1: real, v2: real, s: real)
    ensures u0 * (s * v0) + u1 * (s * v1) + u2 * (s * v2) == s * (u0 * v0 + u1 * v1 + u2 * v2)
  {
  }

  /** Two moves along a add up. */
  lemma SubAddScale(v: Vec, x: real, y: real, a: Vec)
    requires |v| == 3 && |a| == 3
    ensures Add(Sub(v, Scale(x, a)), Scale(y, a)) == Add(v, Scale(y - x, a))
  {
    Vec3Ext(Add(Sub(v, Scale(x, a)), Scale(y, a)), Add(v, Scale(y - x, a)));
  }

  /** A move along a nonzero a leaves v in place only when it is the zero move. */
  lemma AddScaleFixed(v: Vec, s: real, a: Vec)
    requires |v| == 3 && |a| == 3 && Dot3(a, a) != 0.0
    ensures Add(v, Scale(s, a)) == v <==> s == 0.0
  {
    if s == 0.0 {
      Vec3Ext(Add(v, Scale(s, a)), v);
    }
    if Add(v, Scale(s, a)) == v {
      var w := Add(v, Scale(s, a));
      assert w[0] == v[0] + s * a[0] && w[1] == v[1] + s * a[1] && w[2] == v[2] + s * a[2];
      ZeroProducts(s, a[0], a[1], a[2]);
    }
  }

  lemma ZeroProducts(s: real, a0: real, a1: real, a2: real)
    requires s * a0 == 0.0 && s * a1 == 0.0 && s * a2 == 0.0
    requires a0 * a0 + a1 * a1 + a2 * a2 != 0.0
    ensures s == 0.0
  {
  }

  /** Moving v by -s a and then by s a returns v. */
  lemma AddScaleUndo(v: Vec, s: real, a: Vec)
    requires |v| == 3 && |a| == 3
    ensures Add(Add(v, Scale(-s, a)), Scale(s, a)) == v
  {
    Vec3Ext(Add(Add(v, Scale(-s, a)), Scale(s, a)), v);
  }

  /** A 3x3 matrix acts linearly on sums. */
  lemma MatVec3Add(m: Mat, u: Vec, v: Vec)
    requires IsMat(m, 3, 3) && |u| == 3 && |v| == 3
    ensures MatVec3(m, Add(u, v)) == Add(MatVec3(m, u), MatVec3(m, v))
  {
    Vec3Ext(MatVec3(m, Add(u, v)), Add(MatVec3(m, u), MatVec3(m, v)));
  }

  lemma DotUnit3(i: nat, v: Vec)
    requires i < 3 && |v| == 3
    ensures Dot3(Unit(3, i), v) == v[i]
    ensures Dot3(v, Unit(3, i)) == v[i]
  {
  }

  /** Dotting with a standard basis vector selects one coordinate. */
  lemma {:induction false} DotUnit(n: nat, i: nat, v: Vec)
    requires |v| == n && i < n
    ensures Dot(Unit(n, i), v) == v[i]
    ensures Dot(v, Unit(n, i)) == v[i]
  {
    if i == 0 {
      DotZeroTail(Unit(n, 0)[1..], v[1..]);
    } else {
      assert Unit(n, i)[1..] == Unit(n - 1, i - 1);
      DotUnit(n - 1, i - 1, v[1..]);
    }
  }

  lemma {:induction false} DotZeroTail(z: Vec, v: Vec)
    requires |z| == |v|
    requires forall j :: 0 <= j < |z| ==> z[j] == 0.0
    ensures Dot(z, v) == 0.0 && Dot(v, z) == 0.0
  {
    if |z| > 0 {
      DotZeroTail(z[1..], v[1..]);
    }
  }

  /** Two matrices of one shape are equal when all their entries are. */
  lemma MatExt(a: Mat, b: Mat, rows: nat, cols: nat)
    requires IsMat(a, rows, cols) && IsMat(b, rows, cols)
    requires forall i, j :: 0 <= i < rows && 0 <= j < cols ==> a[i][j] == b[i][j]
    ensures a == b
  {
    forall i | 0 <= i < rows
      ensures a[i] == b[i]
    {
    }
  }

  /** A square matrix is the identity exactly when its entries are Delta. */
  lemma IdentityIff(a: Mat, n: nat)
    requires IsMat(a, n, n)
    ensures a == Identity(n) <==> forall i, j :: 0 <= i < n && 0 <= j < n ==> a[i][j] == Delta(i, j)
  {
    if forall i, j :: 0 <= i < n && 0 <= j < n ==> a[i][j] == Delta(i, j) {
      MatExt(a, Identity(n), n, n);
    }
  }

  /** Two 3-vectors are equal when their coordinates are. */
  lemma Vec3Ext(u: Vec, v: Vec)
    requires |u| == 3 && |v| == 3 && u[0] == v[0] && u[1] == v[1] && u[2] == v[2]
    ensures u == v
  {
  }

  /** `np.eye(n) @ v == v`. */
  lemma IdentityMatVec(v: Vec)
    ensures MatVec(Identity(|v|), v) == v
  {
    forall i | 0 <= i < |v|
      ensures MatVec(Identity(|v|), v)[i] == v[i]
    {
      assert Identity(|v|)[i] == Unit(|v|, i);
      DotUnit(|v|, i, v);
    }
  }

  lemma IdentityMatMul3(m: Mat)
    requires IsMat(m, 3, 3)
    ensures MatMul3(Identity(3), m) == m && MatMul3(m, Identity(3)) == m
  {
    MatExt(MatMul3(Identity(3), m), m, 3, 3);
    MatExt(MatMul3(m, Identity(3)), m, 3, 3);
  }

  lemma IdentityMatVec3(v: Vec)
    requires |v| == 3
    ensures MatVec3(Identity(3), v) == v
  {
  }

  /** Column j of a b is a applied to column j of b. */
  lemma MatMul3Column(a: Mat, b: Mat, j: nat)
    requires IsMat(a, 3, 3) && IsMat(b, 3, 3) && j < 3
    ensures MatVec3(a, MatVec3(b, Unit(3, j))) == [MatMul3(a, b)[0][j], MatMul3(a, b)[1][j], MatMul3(a, b)[2][j]]
  {
    DotUnit3(j, b[0]);
    DotUnit3(j, b[1]);
    DotUnit3(j, b[2]);
    var c := [b[0][j], b[1][j], b[2][j]];
    Vec3Ext(MatVec3(b, Unit(3, j)), c);
    Vec3Ext(MatVec3(a, c), [MatMul3(a, b)[0][j], MatMul3(a, b)[1][j], MatMul3(a, b)[2][j]]);
  }

  /** A 3x3 matrix that undoes itself on every basis vector squares to the identity. */
  lemma SelfInverse3(m: Mat)
    requires IsMat(m, 3, 3)
    requires MatVec3(m, MatVec3(m, Unit(3, 0))) == Unit(3, 0)
    requires MatVec3(m, MatVec3(m, Unit(3, 1))) == Unit(3, 1)
    requires MatVec3(m, MatVec3(m, Unit(3, 2))) == Unit(3, 2)
    ensures MatMul3(m, m) == Identity(3)
  {
    MatMul3Column(m, m, 0);
    MatMul3Column(m, m, 1);
    MatMul3Column(m, m, 2);
    forall i, j | 0 <= i < 3 && 0 <= j < 3
      ensures MatMul3(m, m)[i][j] == Identity(3)[i][j]
    {
      assert MatMul3(m, m)[i][j] == Unit(3, j)[i];
    }
    MatExt(MatMul3(m, m), Identity(3), 3, 3);
  }

  /** 3x3 matrix product is associative. */
  lemma MatMul3Assoc(a: Mat, b: Mat, c: Mat)
    requires IsMat(a, 3, 3) && IsMat(b, 3, 3) && IsMat(c, 3, 3)
    ensures MatMul3(MatMul3(a, b), c) == MatMul3(a, MatMul3(b, c))
  {
    MatExt(MatMul3(MatMul3(a, b), c), MatMul3(a, MatMul3(b, c)), 3, 3);
  }
}
