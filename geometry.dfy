/**
 * Reflections and homogeneous transforms of paper/robot_visualization.py:
 * `reflex_matrix`, `homogenousMatrix`, `reflection_transformation`, the
 * position half of `SE3_2_gen_coordinates`, and the two pytransform3d calls
 * the script relies on (`transform_from`, `transform`), written out as block
 * construction and matrix-vector product.
 */
module Geometry {
  import opened Wrappers
  import opened LinAlg

  /** Why a call aborts: an array of the wrong shape (AssertionError,
      IndexError or ValueError in numpy), or a zero normal, for which
      numpy's division produces a matrix of NaNs. */
  datatype GeometryError = ShapeMismatch | DegenerateNormal

  /** A numpy array of rank 1 (`Flat`) or rank 2 (`Grid`, of the given width). */
  datatype NdArray = Flat(xs: seq<real>) | Grid(rows: Mat, width: nat) {
    predicate WellFormed() {
      Grid? ==> IsMat(rows, |rows|, width)
    }

    /** `a.shape` */
    function Shape(): (s: seq<nat>)
      ensures 1 <= |s| <= 2
    {
      if Flat? then [|xs|] else [|rows|, width]
    }
  }

  /** A 3-vector in either of the two layouts the script accepts for a normal. */
  predicate IsVector3(a: NdArray) {
    a.WellFormed() &&
    match a
    case Flat(xs) => |xs| == 3
    case Grid(rows, width) => |rows| == 3 && width == 1
  }

  /** The entries of a vector in flat or column layout. */
  function Entries(a: NdArray): (v: Vec)
    requires IsVector3(a)
    ensures |v| == 3
  {
    match a
    case Flat(xs) => xs
    case Grid(rows, _) => seq(3, i requires 0 <= i < 3 => rows[i][0])
  }

  /** `np.expand_dims(xs, axis=1)`: a 1-D array as an (n, 1) column. */
  function ExpandColumn(xs: seq<real>): (a: NdArray)
    ensures a.Grid? && a.WellFormed() && |a.rows| == |xs| && a.width == 1
    ensures |xs| == 3 ==> IsVector3(a) && Entries(a) == xs
  {
    Grid(seq(|xs|, i requires 0 <= i < |xs| => [xs[i]]), 1)
  }

  // ---------------------------------------------------------------------
  // Householder reflection

  /** Row i of I - c a a^T: e_i - c a_i a. */
  function HouseholderRowOf(a: Vec, c: real, i: nat): (r: Vec)
    requires |a| == 3 && i < 3
    ensures |r| == 3
    ensures forall j :: 0 <= j < 3 ==> r[j] == Delta(i, j) - c * a[i] * a[j]
  {
    Sub(Unit(3, i), Scale(c * a[i], a))
  }

  /** I - 2 a a^T / (a^T a), written with the scalar c = 2 / (a^T a). Symmetric. */
  function Householder(a: Vec): (k: Mat)
    requires |a| == 3 && Dot3(a, a) != 0.0
    ensures IsMat(k, 3, 3)
    ensures forall i, j :: 0 <= i < 3 && 0 <= j < 3 ==> k[i][j] == k[j][i]
  {
    var c := 2.0 / Dot3(a, a);
    [HouseholderRowOf(a, c, 0), HouseholderRowOf(a, c, 1), HouseholderRowOf(a, c, 2)]
  }

  /** The multiple of a that the reflection subtracts from v: 2 (a . v) / (a . a). */
  function Coefficient(a: Vec, v: Vec): real
    requires |a| == 3 && Dot3(a, a) != 0.0 && |v| == 3
  {
    2.0 / Dot3(a, a) * Dot3(a, v)
  }

  lemma HouseholderRow(a: Vec, v: Vec, i: nat)
    requires |a| == 3 && Dot3(a, a) != 0.0 && |v| == 3 && i < 3
    ensures MatVec3(Householder(a), v)[i] == v[i] - 2.0 / Dot3(a, a) * Dot3(a, v) * a[i]
  {
    assert Householder(a)[i] == HouseholderRowOf(a, 2.0 / Dot3(a, a), i);
    RowOfApply(a, 2.0 / Dot3(a, a), i, v);
  }

  lemma RowOfApply(a: Vec, c: real, i: nat, v: Vec)
    requires |a| == 3 && |v| == 3 && i < 3
    ensures Dot3(HouseholderRowOf(a, c, i), v) == v[i] - c * Dot3(a, v) * a[i]
  {
    DotSubScale3(Unit(3, i), c * a[i], a, v);
    DotUnit3(i, v);
    MulSwap(c, a[i], Dot3(a, v));
  }

  lemma MulSwap(x: real, y: real, z: real)
    ensures x * y * z == x * z * y
  {
  }

  /** The reflection moves v along a by twice v's component along a. */
  lemma HouseholderApply(a: Vec, v: Vec)
    requires |a| == 3 && Dot3(a, a) != 0.0 && |v| == 3
    ensures MatVec3(Householder(a), v) == Sub(v, Scale(Coefficient(a, v), a))
  {
    HouseholderRow(a, v, 0);
    HouseholderRow(a, v, 1);
    HouseholderRow(a, v, 2);
    assert Coefficient(a, v) == 2.0 / Dot3(a, a) * Dot3(a, v);
    Vec3Ext(MatVec3(Householder(a), v), Sub(v, Scale(Coefficient(a, v), a)));
  }

  /** Reflecting v reverses its coefficient. */
  lemma CoefficientOfImage(a: Vec, v: Vec)
    requires |a| == 3 && Dot3(a, a) != 0.0 && |v| == 3
    ensures Coefficient(a, Sub(v, Scale(Coefficient(a, v), a))) == -Coefficient(a, v)
  {
    var n, d := Dot3(a, a), Dot3(a, v);
    var w := Sub(v, Scale(Coefficient(a, v), a));
    DotSubScale3(v, Coefficient(a, v), a, a);
    assert Dot3(a, w) == Dot3(w, a);
    assert Dot3(v, a) == d;
    CancelScalar(n, d);
  }

  lemma CancelScalar(n: real, d: real)
    requires n != 0.0
    ensures 2.0 / n * (d - 2.0 / n * d * n) == -(2.0 / n * d)
  {
    var c := 2.0 / n;
    assert c * n == 2.0;
    assert c * d * n == d * (c * n);
  }

  /** K a = -a: the normal is reversed. */
  lemma HouseholderNegatesNormal(a: Vec)
    requires |a| == 3 && Dot3(a, a) != 0.0
    ensures MatVec3(Householder(a), a) == Scale(-1.0, a)
  {
    HouseholderApply(a, a);
    var n := Dot3(a, a);
    assert Coefficient(a, a) == 2.0 by {
      assert 2.0 / n * n == 2.0;
    }
    Vec3Ext(Sub(a, Scale(2.0, a)), Scale(-1.0, a));
  }

  /** K v = v for every v orthogonal to a: the mirror plane is fixed pointwise. */
  lemma HouseholderFixesPlane(a: Vec, v: Vec)
    requires |a| == 3 && Dot3(a, a) != 0.0 && |v| == 3
    requires Dot3(v, a) == 0.0
    ensures MatVec3(Householder(a), v) == v
  {
    HouseholderApply(a, v);
    assert Coefficient(a, v) == 0.0;
    Vec3Ext(Sub(v, Scale(0.0, a)), v);
  }

  /** K (K v) = v. */
  lemma HouseholderTwice(a: Vec, v: Vec)
    requires |a| == 3 && Dot3(a, a) != 0.0 && |v| == 3
    ensures MatVec3(Householder(a), MatVec3(Householder(a), v)) == v
  {
    var k := Householder(a);
    var w := MatVec3(k, v);
    HouseholderApply(a, v);
    HouseholderApply(a, w);
    CoefficientOfImage(a, v);
    SubScaleUndo(v, Coefficient(a, v), a);
  }

  /** K K = I: the reflection is an involution. */
  lemma HouseholderInvolution(a: Vec)
    requires |a| == 3 && Dot3(a, a) != 0.0
    ensures MatMul3(Householder(a), Householder(a)) == Identity(3)
  {
    HouseholderTwice(a, Unit(3, 0));
    HouseholderTwice(a, Unit(3, 1));
    HouseholderTwice(a, Unit(3, 2));
    SelfInverse3(Householder(a));
  }

  /** K K^T = I: the reflection is orthogonal. */
  lemma HouseholderOrthogonal(a: Vec)
    requires |a| == 3 && Dot3(a, a) != 0.0
    ensures MatMul3(Householder(a), Transpose3(Householder(a))) == Identity(3)
  {
    var k := Householder(a);
    MatExt(Transpose3(k), k, 3, 3);
    HouseholderInvolution(a);
  }

  /** A reflection reverses orientation: det K = -1. */
  lemma HouseholderDeterminant(a: Vec)
    requires |a| == 3 && Dot3(a, a) != 0.0
    ensures Det3(Householder(a)) == -1.0
  {
    CancelDivision(Dot3(a, a));
    RowsDeterminant(a, 2.0 / Dot3(a, a), Householder(a));
  }

  lemma RowsDeterminant(a: Vec, c: real, k: Mat)
    requires |a| == 3 && c * Dot3(a, a) == 2.0
    requires k == [HouseholderRowOf(a, c, 0), HouseholderRowOf(a, c, 1), HouseholderRowOf(a, c, 2)]
    ensures Det3(k) == -1.0
  {
    var e := RankOne(c, a[0], a[1], a[2]);
    RowIsRankOne(a, c, 0);
    RowIsRankOne(a, c, 1);
    RowIsRankOne(a, c, 2);
    assert k == e;
    RankOneDet(c, a[0], a[1], a[2]);
  }

  lemma CancelDivision(n: real)
    requires n != 0.0
    ensures 2.0 / n * n == 2.0
  {
  }

  /** I - c a a^T, written out entry by entry. */
  function RankOne(c: real, a0: real, a1: real, a2: real): Mat {
    [[1.0 - c * a0 * a0, 0.0 - c * a0 * a1, 0.0 - c * a0 * a2],
     [0.0 - c * a1 * a0, 1.0 - c * a1 * a1, 0.0 - c * a1 * a2],
     [0.0 - c * a2 * a0, 0.0 - c * a2 * a1, 1.0 - c * a2 * a2]]
  }

  lemma RowIsRankOne(a: Vec, c: real, i: nat)
    requires |a| == 3 && i < 3
    ensures HouseholderRowOf(a, c, i) == RankOne(c, a[0], a[1], a[2])[i]
  {
    var r, e := HouseholderRowOf(a, c, i), RankOne(c, a[0], a[1], a[2])[i];
    EntryIsRankOne(a, c, i, 0);
    EntryIsRankOne(a, c, i, 1);
    EntryIsRankOne(a, c, i, 2);
    assert r == e;
  }

  lemma EntryIsRankOne(a: Vec, c: real, i: nat, j: nat)
    requires |a| == 3 && i < 3 && j < 3
    ensures HouseholderRowOf(a, c, i)[j] == RankOne(c, a[0], a[1], a[2])[i][j]
  {
  }

  /** det (I - c a a^T) = 1 - c (a . a), the matrix determinant lemma in 3-D. */
  lemma RankOneDet(c: real, a0: real, a1: real, a2: real)
    ensures Det3(RankOne(c, a0, a1, a2)) == 1.0 - c * (a0 * a0 + a1 * a1 + a2 * a2)
  {
  }

  /**
   * `reflex_matrix(a)`: the argument must have some dimension equal to 3 and a
   * second dimension equal to 1, i.e. be a 3x1 column; a zero column yields NaNs.
   */
  function ReflexMatrix(a: NdArray): (r: Result<Mat, GeometryError>)
    requires a.WellFormed()
    ensures r.Success? <==> a.Grid? && IsVector3(a) && Dot3(Entries(a), Entries(a)) != 0.0
    ensures r == Failure(ShapeMismatch) <==> !(a.Grid? && IsVector3(a))
    ensures r.Success? ==> r.value == Householder(Entries(a))
  {
    var shape := a.Shape();
    if 3 !in shape then Failure(ShapeMismatch)
    else if |shape| < 2 then Failure(ShapeMismatch)
    else if shape[1] != 1 then Failure(ShapeMismatch)
    else
      var col := Entries(a);
      if Dot3(col, col) == 0.0 then Failure(DegenerateNormal)
      else Success(Householder(col))
  }

  // ---------------------------------------------------------------------
  // Homogeneous transforms

  /** `tr.transform_from(R, p)`: the block matrix [[R, p], [0 0 0 1]]. */
  function TransformFrom(R: Mat, p: Vec): (x: Mat)
    requires IsMat(R, 3, 3) && |p| == 3
    ensures IsMat(x, 4, 4)
    ensures forall i, j :: 0 <= i < 3 && 0 <= j < 3 ==> x[i][j] == R[i][j]
    ensures forall i :: 0 <= i < 3 ==> x[i][3] == p[i]
    ensures x[3] == [0.0, 0.0, 0.0, 1.0]
  {
    [R[0] + [p[0]], R[1] + [p[1]], R[2] + [p[2]], [0.0, 0.0, 0.0, 1.0]]
  }

  /** `tr.vector_to_point(v)`: homogeneous coordinates of a 3-D point. */
  function Point(v: Vec): (h: Vec)
    requires |v| == 3
    ensures |h| == 4 && h[..3] == v && h[3] == 1.0
  {
    v + [1.0]
  }

  /** `tr.transform(X, h)` on a single 4-vector: the product X @ h. */
  function Transform(x: Mat, h: Vec): (y: Vec)
    requires IsMat(x, 4, 4) && |h| == 4
    ensures |y| == 4
  {
    MatVec4(x, h)
  }

  /** Applying [[R, t], [0 0 0 1]] to a point p gives R p + t (still a point). */
  lemma TransformFromApply(R: Mat, t: Vec, p: Vec)
    requires IsMat(R, 3, 3) && |t| == 3 && |p| == 3
    ensures Transform(TransformFrom(R, t), Point(p)) == Point(Add(MatVec3(R, p), t))
  {
    var x, h := TransformFrom(R, t), Point(p);
    var y, q := Transform(x, h), Point(Add(MatVec3(R, p), t));
    forall i | 0 <= i < 3
      ensures y[i] == q[i]
    {
      assert x[i] == R[i] + [t[i]];
      assert h == [p[0], p[1], p[2], 1.0];
      assert y[i] == R[i][0] * p[0] + R[i][1] * p[1] + R[i][2] * p[2] + t[i] * 1.0;
    }
    assert y[3] == q[3];
  }

  /** The 3-D image of a point under a homogeneous transform, as the script
      takes it with `tr.transform(X, tr.vector_to_point(p))[:3]`. */
  function ApplyToPoint(x: Mat, p: Vec): (q: Vec)
    requires IsMat(x, 4, 4) && |p| == 3
    ensures |q| == 3
  {
    Transform(x, Point(p))[..3]
  }

  lemma ApplyTransformFrom(R: Mat, t: Vec, p: Vec)
    requires IsMat(R, 3, 3) && |t| == 3 && |p| == 3
    ensures ApplyToPoint(TransformFrom(R, t), p) == Add(MatVec3(R, p), t)
  {
    TransformFromApply(R, t, p);
  }

  /** Position half of `SE3_2_gen_coordinates(X)`: X[:3, 3], for a 4x4 X only. */
  function Position(x: Mat): (r: Result<Vec, GeometryError>)
    requires Rectangular(x)
    ensures r.Success? <==> IsMat(x, 4, 4)
    ensures r.Success? ==> r.value == [x[0][3], x[1][3], x[2][3]]
  {
    if |x| == 4 && Cols(x) == 4 then Success([x[0][3], x[1][3], x[2][3]])
    else Failure(ShapeMismatch)
  }

  /** The position read back from [[R, p], [0 0 0 1]] is p. */
  lemma PositionOfTransformFrom(R: Mat, p: Vec)
    requires IsMat(R, 3, 3) && |p| == 3
    ensures Position(TransformFrom(R, p)) == Success(p)
  {
    assert [p[0], p[1], p[2]] == p;
  }

  // ---------------------------------------------------------------------
  // homogenousMatrix: numpy slice assignment with broadcasting

  /** A 2-D array broadcasts into the (3, 3) slice when each dimension is 1 or 3. */
  predicate BroadcastsTo3x3(R: Mat) {
    Rectangular(R) && (|R| == 1 || |R| == 3) && (Cols(R) == 1 || Cols(R) == 3)
  }

  function BroadcastAt(R: Mat, i: nat, j: nat): real
    requires BroadcastsTo3x3(R) && i < 3 && j < 3
  {
    R[if |R| == 1 then 0 else i][if Cols(R) == 1 then 0 else j]
  }

  /** A 1-D array broadcasts into the length-4 column when it has 1 or 4 entries. */
  function ColumnAt(T: Vec, i: nat): real
    requires (|T| == 1 || |T| == 4) && i < 4
  {
    T[if |T| == 1 then 0 else i]
  }

  /**
   * `homogenousMatrix(R, T)`: a zero 4x4 array, X[3, 3] := 1, column 3 := T,
   * upper-left block := R. Column 3 is written after the 1, so X[3][3] ends
   * up as T's last entry; the default T (three zeros) does not fit the column.
   */
  method HomogenousMatrix(R: Mat, T: Vec) returns (r: Result<Mat, GeometryError>)
    requires Rectangular(R)
    ensures r.Success? <==> (|T| == 1 || |T| == 4) && BroadcastsTo3x3(R)
    ensures r.Success? ==> IsMat(r.value, 4, 4)
    ensures r.Success? ==> forall i, j :: 0 <= i < 3 && 0 <= j < 3 ==> r.value[i][j] == BroadcastAt(R, i, j)
    ensures r.Success? ==> r.value[3][..3] == [0.0, 0.0, 0.0]
    ensures r.Success? ==> forall i :: 0 <= i < 4 ==> r.value[i][3] == ColumnAt(T, i)
    ensures |T| == 4 && IsMat(R, 3, 3) ==> (r == Success(TransformFrom(R, T[..3])) <==> T[3] == 1.0)
  {
    var x := new real[4, 4]((i, j) => 0.0);
    x[3, 3] := 1.0;
    if !(|T| == 1 || |T| == 4) {
      return Failure(ShapeMismatch);
    }
    var i := 0;
    while i < 4
      invariant 0 <= i <= 4
      invariant forall a, b :: 0 <= a < 4 && 0 <= b < 3 ==> x[a, b] == 0.0
      invariant forall a :: 0 <= a < i ==> x[a, 3] == ColumnAt(T, a)
    {
      x[i, 3] := ColumnAt(T, i);
      i := i + 1;
    }
    if !BroadcastsTo3x3(R) {
      return Failure(ShapeMismatch);
    }
    i := 0;
    while i < 3
      invariant 0 <= i <= 3
      invariant forall a, b :: 0 <= a < i && 0 <= b < 3 ==> x[a, b] == BroadcastAt(R, a, b)
      invariant forall a, b :: i <= a < 4 && 0 <= b < 3 ==> x[a, b] == 0.0
      invariant forall a :: 0 <= a < 4 ==> x[a, 3] == ColumnAt(T, a)
    {
      var j := 0;
      while j < 3
        invariant 0 <= j <= 3
        invariant forall a, b :: 0 <= a < i && 0 <= b < 3 ==> x[a, b] == BroadcastAt(R, a, b)
        invariant forall b :: 0 <= b < j ==> x[i, b] == BroadcastAt(R, i, b)
        invariant forall b :: j <= b < 3 ==> x[i, b] == 0.0
        invariant forall a, b :: i < a < 4 && 0 <= b < 3 ==> x[a, b] == 0.0
        invariant forall a :: 0 <= a < 4 ==> x[a, 3] == ColumnAt(T, a)
      {
        x[i, j] := BroadcastAt(R, i, j);
        j := j + 1;
      }
      i := i + 1;
    }
    var m := seq(4, a requires 0 <= a < 4 reads x => seq(4, b requires 0 <= b < 4 reads x => x[a, b]));
    r := Success(m);
    if |T| == 4 && IsMat(R, 3, 3) {
      HomogenousIsTransformFrom(m, R, T);
    }
  }

  /** A 4x4 matrix holding R (3x3) in its block and T (length 4) in its last
      column, with zeros below the block, is [[R, T[:3]], [0 0 0 1]] exactly
      when T ends in 1. */
  lemma HomogenousIsTransformFrom(m: Mat, R: Mat, T: Vec)
    requires IsMat(m, 4, 4) && IsMat(R, 3, 3) && |T| == 4
    requires forall i, j :: 0 <= i < 3 && 0 <= j < 3 ==> m[i][j] == R[i][j]
    requires m[3][..3] == [0.0, 0.0, 0.0]
    requires forall i :: 0 <= i < 4 ==> m[i][3] == T[i]
    ensures m == TransformFrom(R, T[..3]) <==> T[3] == 1.0
  {
    var x := TransformFrom(R, T[..3]);
    if T[3] == 1.0 {
      forall i, j | 0 <= i < 4 && 0 <= j < 4
        ensures m[i][j] == x[i][j]
      {
        if i == 3 && j < 3 {
          assert m[3][..3][j] == 0.0;
        }
      }
      MatExt(m, x, 4, 4);
    } else {
      assert m[3][3] != x[3][3];
    }
  }

  // ---------------------------------------------------------------------
  // reflection_transformation

  /**
   * `reflection_transformation(vnorm, point_in_plane)`: a flat normal is first
   * turned into a column; the rotation block is `reflex_matrix(vnorm)` and the
   * translation is -2 vnorm (-(p . vnorm)) = 2 (p . n) n.
   */
  function ReflectionTransformation(vnorm: NdArray, p: Vec): (r: Result<Mat, GeometryError>)
    requires vnorm.WellFormed()
    ensures r.Success? <==> IsVector3(vnorm) && Dot3(Entries(vnorm), Entries(vnorm)) != 0.0 && |p| == 3
    ensures r.Success? ==>
      var n := Entries(vnorm);
      r.value == TransformFrom(Householder(n), Scale(2.0 * Dot3(p, n), n))
  {
    var column := if vnorm.Flat? then ExpandColumn(vnorm.xs) else vnorm;
    var ka :- ReflexMatrix(column);
    var n := Entries(column);
    if |p| != 3 then Failure(ShapeMismatch)
    else
      var t := Scale(-2.0 * -Dot3(p, n), n);
      Success(TransformFrom(ka, t))
  }

  /** A 1-D normal gives the same transform as its 3x1 column. */
  lemma FlatNormalAsColumn(xs: seq<real>, p: Vec)
    ensures ReflectionTransformation(Flat(xs), p) == ReflectionTransformation(ExpandColumn(xs), p)
  {
  }

  /** The bottom row of a reflection transform is [0, 0, 0, 1]. */
  lemma ReflectionBottomRow(vnorm: NdArray, p: Vec)
    requires vnorm.WellFormed() && ReflectionTransformation(vnorm, p).Success?
    ensures ReflectionTransformation(vnorm, p).value[3] == [0.0, 0.0, 0.0, 1.0]
  {
  }

  /** K (s a) = -s a: every multiple of the normal is reversed. */
  lemma HouseholderNegatesMultiple(a: Vec, s: real)
    requires |a| == 3 && Dot3(a, a) != 0.0
    ensures MatVec3(Householder(a), Scale(s, a)) == Scale(-s, a)
  {
    var n := Dot3(a, a);
    HouseholderApply(a, Scale(s, a));
    DotScale3(a, s, a);
    assert Coefficient(a, Scale(s, a)) == 2.0 * s by {
      assert 2.0 / n * (s * n) == 2.0 * s;
    }
    Vec3Ext(Sub(Scale(s, a), Scale(2.0 * s, a)), Scale(-s, a));
  }

  /** Reflecting a point twice gives it back, for every nonzero normal. */
  lemma ReflectionTwiceIsIdentity(vnorm: NdArray, p: Vec, x: Vec)
    requires vnorm.WellFormed() && ReflectionTransformation(vnorm, p).Success? && |x| == 3
    ensures var tk := ReflectionTransformation(vnorm, p).value;
            ApplyToPoint(tk, ApplyToPoint(tk, x)) == x
  {
    var n := Entries(vnorm);
    ReflectTwice(n, 2.0 * Dot3(p, n), x);
  }

  /** x -> K x + s n, applied twice, is the identity. */
  lemma ReflectTwice(n: Vec, s: real, x: Vec)
    requires |n| == 3 && Dot3(n, n) != 0.0 && |x| == 3
    ensures var tk := TransformFrom(Householder(n), Scale(s, n));
            ApplyToPoint(tk, ApplyToPoint(tk, x)) == x
  {
    var k, t := Householder(n), Scale(s, n);
    var kx := MatVec3(k, x);
    ApplyTransformFrom(k, t, x);
    ApplyTransformFrom(k, t, Add(kx, t));
    MatVec3Add(k, kx, t);
    HouseholderTwice(n, x);
    HouseholderNegatesMultiple(n, s);
    AddScaleUndo(x, s, n);
  }

  /**
   * The point the plane is placed through is fixed by the transform exactly
   * when the normal has unit length or the point lies on the parallel plane
   * through the origin: the translation 2 (p . n) n is not divided by n . n.
   */
  lemma PlanePointFixedIff(vnorm: NdArray, p: Vec)
    requires vnorm.WellFormed() && ReflectionTransformation(vnorm, p).Success?
    ensures var n := Entries(vnorm);
            (ApplyToPoint(ReflectionTransformation(vnorm, p).value, p) == p)
              <==> (Dot3(n, n) == 1.0 || Dot3(p, n) == 0.0)
  {
    var n := Entries(vnorm);
    ReflectFixedIff(n, p);
  }

  /** p is fixed by x -> K x + 2 (p . n) n exactly when n . n = 1 or p . n = 0. */
  lemma ReflectFixedIff(n: Vec, p: Vec)
    requires |n| == 3 && Dot3(n, n) != 0.0 && |p| == 3
    ensures (ApplyToPoint(TransformFrom(Householder(n), Scale(2.0 * Dot3(p, n), n)), p) == p)
              <==> (Dot3(n, n) == 1.0 || Dot3(p, n) == 0.0)
  {
    var d := Dot3(p, n);
    var k, t := Householder(n), Scale(2.0 * d, n);
    var c := Coefficient(n, p);
    ApplyTransformFrom(k, t, p);
    HouseholderApply(n, p);
    SubAddScale(p, c, 2.0 * d, n);
    assert ApplyToPoint(TransformFrom(k, t), p) == Add(p, Scale(2.0 * d - c, n));
    AddScaleFixed(p, 2.0 * d - c, n);
    NetShift(n, p);
  }

  /** The net shift 2 (p . n) minus the reflection coefficient of p. */
  lemma NetShift(n: Vec, p: Vec)
    requires |n| == 3 && Dot3(n, n) != 0.0 && |p| == 3
    ensures 2.0 * Dot3(p, n) - Coefficient(n, p) == 0.0 <==> Dot3(n, n) == 1.0 || Dot3(p, n) == 0.0
  {
    assert Dot3(n, p) == Dot3(p, n);
    NetShiftZero(Dot3(n, n), Dot3(p, n));
  }

  /** 2 d - 2 d / m vanishes exactly when d = 0 or m = 1. */
  lemma NetShiftZero(m: real, d: real)
    requires m != 0.0
    ensures 2.0 * d - 2.0 / m * d == 0.0 <==> d == 0.0 || m == 1.0
  {
    if 2.0 * d - 2.0 / m * d == 0.0 && d != 0.0 {
      assert 2.0 / m == 2.0;
      assert 2.0 / m * m == 2.0;
    }
  }
}
