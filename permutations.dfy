/**
 * Permutation matrices from one-line notation. An entry may carry a sign (a
 * reflected coordinate); only its absolute value selects the column, while the
 * duplicate check compares the signed values.
 */
module Permutations {
  import opened Wrappers
  import opened LinAlg

  datatype PermError =
    | Duplicate   // the assertion on the number of unique values fails
    | OutOfRange  // numpy's IndexError: a column index |p_i| >= d, or the empty
                  // index array np.abs(()) of float dtype

  function Abs(x: int): nat {
    if x < 0 then -x else x
  }

  /** The set `np.unique` computes. */
  function Values(p: seq<int>): set<int> {
    set x | x in p
  }

  /** No signed value occurs twice. */
  predicate Distinct(p: seq<int>) {
    forall i, j :: 0 <= i < j < |p| ==> p[i] != p[j]
  }

  /** Every column index |p_i| exists in a d x d matrix. */
  predicate InRange(p: seq<int>) {
    forall i :: 0 <= i < |p| ==> Abs(p[i]) < |p|
  }

  /** The absolute values are pairwise different. */
  predicate AbsDistinct(p: seq<int>) {
    forall i, j :: 0 <= i < j < |p| ==> Abs(p[i]) != Abs(p[j])
  }

  /** Row i is the basis vector e_{|p_i|}. */
  function PermMatrix(p: seq<int>): (m: Mat)
    requires InRange(p)
    ensures IsMat(m, |p|, |p|)
    ensures forall i, j :: 0 <= i < |p| && 0 <= j < |p| ==> m[i][j] == Delta(Abs(p[i]), j)
  {
    seq(|p|, i requires 0 <= i < |p| => Unit(|p|, Abs(p[i])))
  }

  /** `is_canonical_permutation(P)`: P @ P equals the identity (exactly, over
      the reals), that is, it has 1 on its diagonal and 0 everywhere else. */
  function IsCanonicalPermutation(m: Mat): (c: bool)
    requires IsMat(m, |m|, |m|)
    ensures c <==> forall i, j :: 0 <= i < |m| && 0 <= j < |m| ==> MatMul(m, m)[i][j] == Delta(i, j)
  {
    IdentityIff(MatMul(m, m), |m|);
    MatMul(m, m) == Identity(|m|)
  }

  // ---------------------------------------------------------------------
  // The unique-count check

  lemma {:induction false} ValuesCardBound(p: seq<int>)
    ensures |Values(p)| <= |p|
  {
    if |p| > 0 {
      var q := p[..|p| - 1];
      assert p == q + [p[|p| - 1]];
      assert Values(p) == Values(q) + {p[|p| - 1]};
      ValuesCardBound(q);
    }
  }

  /** `d == len(np.unique(p))` holds exactly when no signed value repeats. */
  lemma {:induction false} UniqueCountIffDistinct(p: seq<int>)
    ensures |Values(p)| == |p| <==> Distinct(p)
  {
    if |p| > 0 {
      var n := |p| - 1;
      var q, x := p[..n], p[n];
      assert p == q + [x];
      assert Values(p) == Values(q) + {x};
      UniqueCountIffDistinct(q);
      ValuesCardBound(q);
      DistinctSnoc(q, x);
    }
  }

  /** Appending a value keeps the values distinct exactly when it is new. */
  lemma DistinctSnoc(q: seq<int>, x: int)
    ensures Distinct(q + [x]) <==> Distinct(q) && x !in q
  {
    var p := q + [x];
    if Distinct(p) {
      forall i, j | 0 <= i < j < |q|
        ensures q[i] != q[j]
      {
        assert p[i] == q[i] && p[j] == q[j];
      }
      forall i | 0 <= i < |q|
        ensures q[i] != x
      {
        assert p[i] == q[i] && p[|q|] == x;
      }
    }
  }

  // ---------------------------------------------------------------------
  // permutation_matrix

  /**
   * `permutation_matrix(p)`: a zero d x d matrix, the assertion that the d
   * signed values are unique, then a 1 written at (i, |p_i|) for every row i.
   */
  method PermutationMatrix(p: seq<int>) returns (r: Result<Mat, PermError>)
    ensures r.Success? <==> |p| > 0 && Distinct(p) && InRange(p)
    ensures r == Failure(Duplicate) <==> !Distinct(p)
    ensures r.Success? ==> r.value == PermMatrix(p)
  {
    var d := |p|;
    var m := new real[d, d]((i, j) => 0.0);
    UniqueCountIffDistinct(p);
    if d != |Values(p)| {
      return Failure(Duplicate);
    }
    if d == 0 {
      return Failure(OutOfRange);
    }
    var i := 0;
    while i < d
      invariant 0 <= i <= d
      invariant forall a :: 0 <= a < i ==> Abs(p[a]) < d
      invariant forall a, b :: 0 <= a < d && 0 <= b < d ==>
                  m[a, b] == (if a < i && b == Abs(p[a]) then 1.0 else 0.0)
    {
      if Abs(p[i]) >= d {
        return Failure(OutOfRange);
      }
      m[i, Abs(p[i])] := 1.0;
      i := i + 1;
    }
    r := Success(seq(d, a requires 0 <= a < d reads m =>
                   seq(d, b requires 0 <= b < d reads m => m[a, b])));
    assert r.value == PermMatrix(p) by {
      MatExt(r.value, PermMatrix(p), d, d);
    }
  }

  // ---------------------------------------------------------------------
  // Properties

  /** Row i of the matrix holds a single 1, in column |p_i|. */
  lemma RowHasSingleOne(p: seq<int>, i: nat)
    requires InRange(p) && i < |p|
    ensures var m := PermMatrix(p);
            m[i][Abs(p[i])] == 1.0
            && forall j :: 0 <= j < |p| && j != Abs(p[i]) ==> m[i][j] == 0.0
  {
  }

  /** The column indices 0 .. n-1. */
  function Range(n: nat): (r: set<nat>)
    ensures forall j: int :: j in r <==> 0 <= j < n
    ensures |r| == n
  {
    if n == 0 then {} else Range(n - 1) + {n - 1}
  }

  /** The column indices used by the first n rows. */
  function AbsImage(p: seq<int>, n: nat): set<nat>
    requires n <= |p|
  {
    set i | 0 <= i < n :: Abs(p[i])
  }

  lemma {:induction false} AbsImageCard(p: seq<int>, n: nat)
    requires n <= |p| && AbsDistinct(p)
    ensures |AbsImage(p, n)| == n
  {
    if n > 0 {
      assert AbsImage(p, n) == AbsImage(p, n - 1) + {Abs(p[n - 1])};
      assert Abs(p[n - 1]) !in AbsImage(p, n - 1);
      AbsImageCard(p, n - 1);
    }
  }

  /** d different column indices below d use up every column. */
  lemma EveryColumnUsed(p: seq<int>, j: nat)
    requires InRange(p) && AbsDistinct(p) && j < |p|
    ensures exists i :: 0 <= i < |p| && Abs(p[i]) == j
  {
    var d := |p|;
    var used := AbsImage(p, d);
    AbsImageCard(p, d);
    if j !in used {
      assert used <= Range(d) - {j};
      SubsetCard(used, Range(d) - {j});
      assert false;
    }
  }

  lemma SubsetCard<T>(a: set<T>, b: set<T>)
    requires a <= b
    ensures |a| <= |b|
  {
    assert b == a + (b - a);
  }

  /** When the |p_i| are d different indices, every column also holds a single 1. */
  lemma ColumnHasSingleOne(p: seq<int>, j: nat)
    requires InRange(p) && AbsDistinct(p) && j < |p|
    ensures var m := PermMatrix(p);
            (exists i :: 0 <= i < |p| && m[i][j] == 1.0)
            && forall a, b :: 0 <= a < |p| && 0 <= b < |p| && m[a][j] == 1.0 && m[b][j] == 1.0 ==> a == b
  {
    EveryColumnUsed(p, j);
    var i :| 0 <= i < |p| && Abs(p[i]) == j;
    assert PermMatrix(p)[i][j] == 1.0;
  }

  /** (1, -1) passes the unique-value check, yet column 1 receives two 1s. */
  lemma SignedDuplicateCounterexample()
    ensures Distinct([1, -1]) && InRange([1, -1])
    ensures PermMatrix([1, -1])[0][1] == 1.0 && PermMatrix([1, -1])[1][1] == 1.0
  {
  }

  /** Entry (i, k) of P @ P is 1 exactly when k = |p_{|p_i|}|. */
  lemma SquareEntry(p: seq<int>, i: nat, k: nat)
    requires InRange(p) && i < |p| && k < |p|
    ensures MatMul(PermMatrix(p), PermMatrix(p))[i][k] == Delta(Abs(p[Abs(p[i])]), k)
  {
    var m, d, a := PermMatrix(p), |p|, Abs(p[i]);
    assert m[i] == Unit(d, a);
    DotUnit(d, a, Column(m, k));
  }

  /** P @ P = I exactly when the permutation is an involution: |p_{|p_i|}| = i. */
  lemma CanonicalIffInvolution(p: seq<int>)
    requires InRange(p)
    ensures IsCanonicalPermutation(PermMatrix(p)) <==> forall i :: 0 <= i < |p| ==> Abs(p[Abs(p[i])]) == i
  {
    var m, d := PermMatrix(p), |p|;
    var sq := MatMul(m, m);
    if forall i :: 0 <= i < d ==> Abs(p[Abs(p[i])]) == i {
      forall i, k | 0 <= i < d && 0 <= k < d
        ensures sq[i][k] == Identity(d)[i][k]
      {
        SquareEntry(p, i, k);
      }
      MatExt(sq, Identity(d), d, d);
    }
    if sq == Identity(d) {
      forall i | 0 <= i < d
        ensures Abs(p[Abs(p[i])]) == i
      {
        SquareEntry(p, i, i);
      }
    }
  }

  /** The module's own self-test: (2, 3, 0, 1) yields a canonical permutation. */
  lemma SelfTest()
    ensures Distinct([2, 3, 0, 1]) && InRange([2, 3, 0, 1])
    ensures IsCanonicalPermutation(PermMatrix([2, 3, 0, 1]))
  {
    var p := [2, 3, 0, 1];
    CanonicalIffInvolution(p);
  }
}
