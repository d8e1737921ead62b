/**
 * The orbit of one measured sample of the quadruped under the discrete
 * symmetry group, as the visualisation script assembles it before drawing:
 * for every non-identity group action g it transforms the joint state, the
 * momentum, the base pose, the two contact forces and their points of
 * application, and appends each image to its own list.
 */
module Orbit {
  import opened LinAlg
  import opened Wrappers
  import opened Geometry

  /** The original measurements: state x = [q, dq], momentum hg_B, base pose
      (RB, rB), contact forces f1, f2 and their points of application r1, r2. */
  datatype Sample = Sample(x: Vec, hg: Vec, RB: Mat, rB: Vec, f1: Vec, f2: Vec, r1: Vec, r2: Vec)

  /**
   * The group representations the loop zips together: the actions on the
   * state, on the momentum, on the joint space and on Euclidean space (each
   * list starting with the identity element, which the loop skips), and the
   * offsets that place the planes of reflection.
   */
  datatype Actions = Actions(rhoX: seq<Mat>, rhoY: seq<Mat>, rhoQj: seq<Mat>, rhoE3: seq<Mat>, offsets: seq<Vec>)

  /** One element of the orbit: the image of every measurement under one action. */
  datatype Entry = Entry(x: Vec, hg: Vec, XB: Mat, Xg: Mat, f1: Vec, f2: Vec, r1: Vec, r2: Vec)

  /** The lists the script builds, plus the q/dq halves of the states. */
  datatype Orbit = Orbit(Gx: seq<Vec>, Ghg: seq<Vec>, GXB: seq<Mat>, GXg: seq<Mat>,
                         Gf1: seq<Vec>, Gf2: seq<Vec>, Gr1: seq<Vec>, Gr2: seq<Vec>,
                         Gq: seq<Vec>, Gdq: seq<Vec>)

  /** Length of `seq[1:]`. */
  function Rest(n: nat): nat {
    if n == 0 then 0 else n - 1
  }

  function Min(a: nat, b: nat): nat {
    if a <= b then a else b
  }

  /** Number of iterations of the `zip` over the four action lists without
      their first element and the offsets: the shortest of them. */
  function ZipLength(g: Actions): (n: nat)
    ensures n <= Rest(|g.rhoX|) && n <= Rest(|g.rhoY|) && n <= Rest(|g.rhoQj|)
    ensures n <= Rest(|g.rhoE3|) && n <= |g.offsets|
  {
    Min(Min(Min(Min(Rest(|g.rhoX|), Rest(|g.rhoY|)), Rest(|g.rhoQj|)), Rest(|g.rhoE3|)), |g.offsets|)
  }

  /** The zip stops exactly when its shortest input runs out. */
  lemma ZipLengthIsShortest(g: Actions)
    ensures var n := ZipLength(g);
            n == Rest(|g.rhoX|) || n == Rest(|g.rhoY|) || n == Rest(|g.rhoQj|)
            || n == Rest(|g.rhoE3|) || n == |g.offsets|
  {
  }

  predicate SampleShapes(s: Sample) {
    |s.x| % 2 == 0 && IsMat(s.RB, 3, 3) && |s.rB| == 3
    && |s.f1| == 3 && |s.f2| == 3 && |s.r1| == 3 && |s.r2| == 3
  }

  /** The shapes under which every product of iteration k is defined and the
      transformed state splits into two halves. */
  predicate ActionShapes(s: Sample, g: Actions, k: nat)
    requires 1 <= k <= ZipLength(g)
  {
    IsMat(g.rhoX[k], |g.rhoX[k]|, |s.x|) && |g.rhoX[k]| % 2 == 0
    && IsMat(g.rhoY[k], |g.rhoY[k]|, |s.hg|)
    && IsMat(g.rhoE3[k], 3, 3) && |g.offsets[k - 1]| == 3
  }

  predicate Conforms(s: Sample, g: Actions) {
    SampleShapes(s) && forall k :: 1 <= k <= ZipLength(g) ==> ActionShapes(s, g, k)
  }

  /** Column j of a 4x4 matrix, `X[:, j]`. */
  function Column4(x: Mat, j: nat): (c: Vec)
    requires IsMat(x, 4, 4) && j < 4
    ensures |c| == 4
  {
    [x[0][j], x[1][j], x[2][j], x[3][j]]
  }

  /** The sample itself, with the identity transform as its group element. */
  function Original(s: Sample): (e: Entry)
    requires SampleShapes(s)
    ensures e.Xg == Identity(4)
    ensures IsMat(e.XB, 4, 4) && Position(e.XB) == Success(s.rB)
    ensures forall i, j :: 0 <= i < 3 && 0 <= j < 3 ==> e.XB[i][j] == s.RB[i][j]
    ensures e.x == s.x && e.hg == s.hg && e.f1 == s.f1 && e.f2 == s.f2 && e.r1 == s.r1 && e.r2 == s.r2
  {
    IdentityTransform();
    PositionOfTransformFrom(s.RB, s.rB);
    Entry(s.x, s.hg, TransformFrom(s.RB, s.rB), TransformFrom(Identity(3), [0.0, 0.0, 0.0]),
          s.f1, s.f2, s.r1, s.r2)
  }

  /** [[I, 0], [0 0 0 1]] is the 4x4 identity. */
  lemma IdentityTransform()
    ensures TransformFrom(Identity(3), [0.0, 0.0, 0.0]) == Identity(4)
  {
    var x := TransformFrom(Identity(3), [0.0, 0.0, 0.0]);
    MatExt(x, Identity(4), 4, 4);
  }

  /**
   * The image of the sample under one action (rx on the state, ry on the
   * momentum, R and r on Euclidean space). Forces are rotated; points and
   * the base position are moved by X_g = [[R, r], [0 0 0 1]]; the base
   * rotation becomes R RB R.
   */
  function Act(s: Sample, rx: Mat, ry: Mat, R: Mat, r: Vec): (e: Entry)
    requires SampleShapes(s) && IsMat(rx, |rx|, |s.x|) && IsMat(ry, |ry|, |s.hg|)
    requires IsMat(R, 3, 3) && |r| == 3
    ensures |e.x| == |rx| && |e.hg| == |ry|
  {
    var xg := TransformFrom(R, r);
    var xb := TransformFrom(s.RB, s.rB);
    Entry(MatVec(rx, s.x), MatVec(ry, s.hg),
          TransformFrom(MatMul3(MatMul3(R, s.RB), R), Transform(xg, Column4(xb, 3))[..3]),
          xg, MatVec3(R, s.f1), MatVec3(R, s.f2), ApplyToPoint(xg, s.r1), ApplyToPoint(xg, s.r2))
  }

  /** The image of the sample under the k-th action of the zip (k >= 1). */
  function ActAt(s: Sample, g: Actions, k: nat): Entry
    requires Conforms(s, g) && 1 <= k <= ZipLength(g)
  {
    assert ActionShapes(s, g, k);
    Act(s, g.rhoX[k], g.rhoY[k], g.rhoE3[k], g.offsets[k - 1])
  }

  /** What entry k of the orbit holds: the original sample, then the images. */
  function Expected(s: Sample, g: Actions, k: nat): (e: Entry)
    requires Conforms(s, g) && k <= ZipLength(g)
    ensures |e.x| % 2 == 0
  {
    if k == 0 then Original(s)
    else
      assert ActionShapes(s, g, k);
      ActAt(s, g, k)
  }

  /** Entry k of every list of the orbit is e. */
  predicate EntryIs(o: Orbit, k: nat, e: Entry) {
    k < |o.Gx| && k < |o.Ghg| && k < |o.GXB| && k < |o.GXg|
    && k < |o.Gf1| && k < |o.Gf2| && k < |o.Gr1| && k < |o.Gr2|
    && o.Gx[k] == e.x && o.Ghg[k] == e.hg && o.GXB[k] == e.XB && o.GXg[k] == e.Xg
    && o.Gf1[k] == e.f1 && o.Gf2[k] == e.f2 && o.Gr1[k] == e.r1 && o.Gr2[k] == e.r2
  }

  predicate Lengths(o: Orbit, n: nat) {
    |o.Gx| == n && |o.Ghg| == n && |o.GXB| == n && |o.GXg| == n
    && |o.Gf1| == n && |o.Gf2| == n && |o.Gr1| == n && |o.Gr2| == n
    && |o.Gq| == n && |o.Gdq| == n
  }

  /** `np.split(x, 2)`: the two equal halves of an even-length vector. */
  function Split(x: Vec): (h: (Vec, Vec))
    requires |x| % 2 == 0
    ensures h.0 + h.1 == x && |h.0| == |h.1|
  {
    (x[..|x| / 2], x[|x| / 2..])
  }

  /**
   * The loop of the script: entry 0 of every list is the original sample, and
   * each iteration appends to every list the image of the ORIGINAL sample
   * under the next action. Afterwards each state is split into its q and dq
   * halves.
   */
  method GenerateOrbit(s: Sample, g: Actions) returns (o: Orbit)
    requires Conforms(s, g)
    ensures Lengths(o, 1 + ZipLength(g))
    ensures forall k :: 0 <= k <= ZipLength(g) ==> EntryIs(o, k, Expected(s, g, k))
    ensures forall k :: 0 <= k < |o.Gx| ==> o.Gq[k] + o.Gdq[k] == o.Gx[k] && |o.Gq[k]| == |o.Gdq[k]|
  {
    var lists := CollectImages(s, g);
    HoldsEntries(lists, s, g);
    var gq, gdq := SplitStates(lists.Gx);
    o := lists.(Gq := gq, Gdq := gdq);
  }

  /** The loop itself: the eight lists, started with the original sample and
      extended by one image per action. */
  method CollectImages(s: Sample, g: Actions) returns (lists: Orbit)
    requires Conforms(s, g)
    ensures Holds(lists, Expecteds(s, g, ZipLength(g)))
  {
    var e0 := Original(s);
    lists := Orbit([e0.x], [e0.hg], [e0.XB], [e0.Xg], [e0.f1], [e0.f2], [e0.r1], [e0.r2], [], []);
    var n := ZipLength(g);
    var k := 0;
    while k < n
      invariant 0 <= k <= n
      invariant Holds(lists, Expecteds(s, g, k))
    {
      var e := ActOnce(s, g, k + 1);
      HoldsAppend(lists, Expecteds(s, g, k), e);
      ExpectedsSnoc(s, g, k);
      lists := Append(lists, e);
      k := k + 1;
    }
  }

  /** Entries 0 to k of the orbit. */
  function Expecteds(s: Sample, g: Actions, k: nat): (es: seq<Entry>)
    requires Conforms(s, g) && k <= ZipLength(g)
    ensures |es| == k + 1
    ensures forall j :: 0 <= j <= k ==> es[j] == Expected(s, g, j)
  {
    seq(k + 1, j requires 0 <= j <= k => Expected(s, g, j))
  }

  /** One more entry of the orbit. */
  lemma ExpectedsSnoc(s: Sample, g: Actions, k: nat)
    requires Conforms(s, g) && k < ZipLength(g)
    ensures Expecteds(s, g, k + 1) == Expecteds(s, g, k) + [Expected(s, g, k + 1)]
  {
  }

  /** `Gx.append(...)`, ..., `Gr2.append(...)`: e appended to each of the eight lists. */
  function Append(o: Orbit, e: Entry): Orbit {
    o.(Gx := o.Gx + [e.x], Ghg := o.Ghg + [e.hg], GXB := o.GXB + [e.XB], GXg := o.GXg + [e.Xg],
       Gf1 := o.Gf1 + [e.f1], Gf2 := o.Gf2 + [e.f2], Gr1 := o.Gr1 + [e.r1], Gr2 := o.Gr2 + [e.r2])
  }

  /** Appending one entry to each of the eight lists appends it to the entries. */
  lemma HoldsAppend(o: Orbit, es: seq<Entry>, e: Entry)
    requires Holds(o, es)
    ensures Holds(Append(o, e), es + [e])
  {
  }

  /** Lists holding every entry of the orbit hold entry k at index k, and
      every state among them splits into two halves. */
  lemma HoldsEntries(o: Orbit, s: Sample, g: Actions)
    requires Conforms(s, g) && Holds(o, Expecteds(s, g, ZipLength(g)))
    ensures forall k :: 0 <= k <= ZipLength(g) ==> EntryIs(o, k, Expected(s, g, k))
    ensures forall j :: 0 <= j < |o.Gx| ==> |o.Gx[j]| % 2 == 0
  {
    var es := Expecteds(s, g, ZipLength(g));
    forall j | 0 <= j < |o.Gx|
      ensures |o.Gx[j]| % 2 == 0
    {
      assert EntryIs(o, j, es[j]);
    }
    forall k | 0 <= k <= ZipLength(g)
      ensures EntryIs(o, k, Expected(s, g, k))
    {
      assert EntryIs(o, k, es[k]);
    }
  }

  /** The eight lists of o hold exactly the entries es, in order. */
  predicate Holds(o: Orbit, es: seq<Entry>) {
    |o.Gx| == |o.Ghg| == |o.GXB| == |o.GXg| == |o.Gf1| == |o.Gf2| == |o.Gr1| == |o.Gr2| == |es|
    && forall j :: 0 <= j < |es| ==> EntryIs(o, j, es[j])
  }

  /** One iteration of the loop: the image of the original sample under the
      k-th action, computed step by step as the script does. */
  method ActOnce(s: Sample, g: Actions, k: nat) returns (e: Entry)
    requires Conforms(s, g) && 1 <= k <= ZipLength(g)
    ensures e == Expected(s, g, k)
  {
    assert ActionShapes(s, g, k);
    var rx, ry, rg, off := g.rhoX[k], g.rhoY[k], g.rhoE3[k], g.offsets[k - 1];
    var xg := TransformFrom(rg, off);
    var x, hg := MatVec(rx, s.x), MatVec(ry, s.hg);
    var xb := TransformFrom(s.RB, s.rB);
    var gRB := MatMul3(MatMul3(rg, s.RB), rg);
    var gtXB := Transform(xg, Column4(xb, 3))[..3];
    var f1, f2 := MatVec3(rg, s.f1), MatVec3(rg, s.f2);
    var r1, r2 := ApplyToPoint(xg, s.r1), ApplyToPoint(xg, s.r2);
    e := Entry(x, hg, TransformFrom(gRB, gtXB), xg, f1, f2, r1, r2);
  }

  /** `np.split(x, 2)` of every state of the orbit. */
  method SplitStates(gx: seq<Vec>) returns (gq: seq<Vec>, gdq: seq<Vec>)
    requires forall j :: 0 <= j < |gx| ==> |gx[j]| % 2 == 0
    ensures |gq| == |gx| && |gdq| == |gx|
    ensures forall k :: 0 <= k < |gx| ==> gq[k] + gdq[k] == gx[k] && |gq[k]| == |gdq[k]|
  {
    gq, gdq := [], [];
    for i := 0 to |gx|
      invariant |gq| == i && |gdq| == i
      invariant forall k :: 0 <= k < i ==> gq[k] + gdq[k] == gx[k] && |gq[k]| == |gdq[k]|
    {
      var h := Split(gx[i]);
      gq, gdq := gq + [h.0], gdq + [h.1];
    }
  }

  // ---------------------------------------------------------------------
  // What each image is, in geometric terms

  /** Contact forces are rotated, never translated; contact points and the base
      position are moved by R p + r; the base rotation is R RB R; the state and
      momentum are the representation matrices applied to the original ones. */
  lemma ActGeometry(s: Sample, rx: Mat, ry: Mat, R: Mat, r: Vec)
    requires SampleShapes(s) && IsMat(rx, |rx|, |s.x|) && IsMat(ry, |ry|, |s.hg|)
    requires IsMat(R, 3, 3) && |r| == 3
    ensures var e := Act(s, rx, ry, R, r);
            && e.x == MatVec(rx, s.x) && e.hg == MatVec(ry, s.hg)
            && e.f1 == MatVec3(R, s.f1) && e.f2 == MatVec3(R, s.f2)
            && e.r1 == Add(MatVec3(R, s.r1), r) && e.r2 == Add(MatVec3(R, s.r2), r)
            && e.Xg == TransformFrom(R, r)
            && e.XB == TransformFrom(MatMul3(MatMul3(R, s.RB), R), Add(MatVec3(R, s.rB), r))
            && Position(e.XB) == Success(Add(MatVec3(R, s.rB), r))
  {
    var xg := TransformFrom(R, r);
    var xb := TransformFrom(s.RB, s.rB);
    assert Column4(xb, 3) == Point(s.rB);
    ApplyTransformFrom(R, r, s.rB);
    ApplyTransformFrom(R, r, s.r1);
    ApplyTransformFrom(R, r, s.r2);
    PositionOfTransformFrom(MatMul3(MatMul3(R, s.RB), R), Add(MatVec3(R, s.rB), r));
  }

  /** The identity action (identity representations, R = I, r = 0) maps the
      sample to entry 0 of the orbit. */
  lemma IdentityActionIsOriginal(s: Sample)
    requires SampleShapes(s)
    ensures Act(s, Identity(|s.x|), Identity(|s.hg|), Identity(3), [0.0, 0.0, 0.0]) == Original(s)
  {
    var z := [0.0, 0.0, 0.0];
    ActGeometry(s, Identity(|s.x|), Identity(|s.hg|), Identity(3), z);
    IdentityMatVec(s.x);
    IdentityMatVec(s.hg);
    IdentityMatVec3(s.f1);
    IdentityMatVec3(s.f2);
    IdentityMatVec3(s.r1);
    IdentityMatVec3(s.r2);
    IdentityMatVec3(s.rB);
    IdentityMatMul3(s.RB);
    AddZero(s.r1);
    AddZero(s.r2);
    AddZero(s.rB);
  }

  lemma AddZero(v: Vec)
    requires |v| == 3
    ensures Add(v, [0.0, 0.0, 0.0]) == v
  {
    Vec3Ext(Add(v, [0.0, 0.0, 0.0]), v);
  }

  /**
   * For an orthogonal R with R R = I (every reflection), the script's base
   * rotation R RB R is the conjugation R RB R^T of the base frame.
   */
  lemma InvolutiveRotationIsConjugation(R: Mat, RB: Mat)
    requires IsMat(R, 3, 3) && IsMat(RB, 3, 3)
    requires MatMul3(R, R) == Identity(3) && MatMul3(Transpose3(R), R) == Identity(3)
    ensures MatMul3(MatMul3(R, RB), R) == MatMul3(MatMul3(R, RB), Transpose3(R))
  {
    var t := Transpose3(R);
    calc {
      t;
      { IdentityMatMul3(t); }
      MatMul3(t, Identity(3));
      MatMul3(t, MatMul3(R, R));
      { MatMul3Assoc(t, R, R); }
      MatMul3(MatMul3(t, R), R);
      { IdentityMatMul3(R); }
      R;
    }
  }

  /** In particular for the Householder reflections of the group. */
  lemma ReflectionActionIsConjugation(n: Vec, RB: Mat)
    requires |n| == 3 && Dot3(n, n) != 0.0 && IsMat(RB, 3, 3)
    ensures var k := Householder(n);
            MatMul3(MatMul3(k, RB), k) == MatMul3(MatMul3(k, RB), Transpose3(k))
  {
    var k := Householder(n);
    HouseholderInvolution(n);
    MatExt(Transpose3(k), k, 3, 3);
    InvolutiveRotationIsConjugation(k, RB);
  }

  /** A quarter turn about z: a proper rotation that is not an involution. */
  function QuarterTurnZ(): (m: Mat)
    ensures IsMat(m, 3, 3)
  {
    [[0.0, -1.0, 0.0], [1.0, 0.0, 0.0], [0.0, 0.0, 1.0]]
  }

  /**
   * For rotations the formula is not a change of frame: with RB = I and a
   * quarter turn R, R RB R is a half turn, while R RB R^T is I and R RB is R.
   */
  lemma QuarterTurnBaseRotation()
    ensures var R := QuarterTurnZ();
            && MatMul3(MatMul3(R, Identity(3)), R) != MatMul3(MatMul3(R, Identity(3)), Transpose3(R))
            && MatMul3(MatMul3(R, Identity(3)), R) != MatMul3(R, Identity(3))
  {
    var R := QuarterTurnZ();
    IdentityMatMul3(R);
    assert MatMul3(R, R)[0][0] == -1.0;
    assert MatMul3(R, Transpose3(R))[0][0] == 1.0;
  }
}
