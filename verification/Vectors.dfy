/** Finite real vectors and matrices: the sums, products and dot products the
    array code is specified with. */
module Vectors {
  import opened Reals

  type Vec = seq<real>
  type Mat = seq<seq<real>>

  predicate IsMatrix(a: Mat, rows: nat, columns: nat) {
    |a| == rows && forall i | 0 <= i < rows :: |a[i]| == columns
  }

  predicate NonNegative(v: Vec) {
    forall i | 0 <= i < |v| :: v[i] >= 0.0
  }

  predicate NonNegativeMatrix(a: Mat) {
    forall i | 0 <= i < |a| :: NonNegative(a[i])
  }

  function Sum(v: Vec): real {
    if v == [] then 0.0 else Sum(v[..|v| - 1]) + v[|v| - 1]
  }

  function Mean(v: Vec): real {
    if v == [] then 0.0 else Sum(v) / |v| as real
  }

  function SquaresAround(column: Vec, centre: real): (v: Vec)
    ensures |v| == |column|
  {
    seq(|column|, t requires 0 <= t < |column| => Mul(column[t] - centre, column[t] - centre))
  }

  function Variance(v: Vec): real {
    Mean(SquaresAround(v, Mean(v)))
  }

  function Times(u: Vec, v: Vec): (w: Vec)
    requires |u| == |v|
    ensures |w| == |u|
  {
    seq(|u|, i requires 0 <= i < |u| => Mul(u[i], v[i]))
  }

  function Scaled(c: real, v: Vec): (w: Vec)
    ensures |w| == |v|
  {
    seq(|v|, i requires 0 <= i < |v| => Mul(c, v[i]))
  }

  function Plus(u: Vec, v: Vec): (w: Vec)
    requires |u| == |v|
    ensures |w| == |u|
  {
    seq(|u|, i requires 0 <= i < |u| => u[i] + v[i])
  }

  function Dot(u: Vec, v: Vec): real
    requires |u| == |v|
  {
    if u == [] then 0.0 else Dot(u[..|u| - 1], v[..|v| - 1]) + Mul(u[|u| - 1], v[|v| - 1])
  }

  function Column(a: Mat, j: nat): (c: Vec)
    requires forall i | 0 <= i < |a| :: j < |a[i]|
    ensures |c| == |a|
  {
    seq(|a|, i requires 0 <= i < |a| => a[i][j])
  }

  function VecMat(u: Vec, a: Mat, columns: nat): (w: Vec)
    requires IsMatrix(a, |u|, columns)
    ensures |w| == columns
  {
    seq(columns, j requires 0 <= j < columns => Dot(u, Column(a, j)))
  }

  function MatVec(a: Mat, v: Vec): (w: Vec)
    requires IsMatrix(a, |a|, |v|)
    ensures |w| == |a|
  {
    seq(|a|, i requires 0 <= i < |a| => Dot(a[i], v))
  }

  function Constant(n: nat, c: real): (w: Vec)
    ensures |w| == n
  {
    seq(n, _ => c)
  }

  lemma {:induction false} SumNonNegative(v: Vec)
    requires NonNegative(v)
    ensures Sum(v) >= 0.0
    ensures forall i | 0 <= i < |v| :: v[i] <= Sum(v)
  {
    if v != [] {
      var w := v[..|v| - 1];
      SumNonNegative(w);
      assert forall i | 0 <= i < |w| :: v[i] == w[i] <= Sum(w);
    }
  }

  /** A vanishing sum of non-negative entries leaves no positive entry. */
  lemma SumZero(v: Vec)
    requires NonNegative(v) && Sum(v) == 0.0
    ensures forall i | 0 <= i < |v| :: v[i] == 0.0
  {
    SumNonNegative(v);
  }

  lemma {:induction false} SumScaled(c: real, v: Vec)
    ensures Sum(Scaled(c, v)) == Mul(c, Sum(v))
  {
    if v != [] {
      assert Scaled(c, v)[..|v| - 1] == Scaled(c, v[..|v| - 1]);
      SumScaled(c, v[..|v| - 1]);
    }
  }

  lemma {:induction false} SumConstant(n: nat, c: real)
    ensures Sum(Constant(n, c)) == n as real * c
  {
    if n > 0 {
      assert Constant(n, c)[..n - 1] == Constant(n - 1, c);
      SumConstant(n - 1, c);
    }
  }

  lemma {:induction false} DotIsSum(u: Vec, v: Vec)
    requires |u| == |v|
    ensures Dot(u, v) == Sum(Times(u, v))
  {
    if u != [] {
      assert Times(u, v)[..|u| - 1] == Times(u[..|u| - 1], v[..|u| - 1]);
      DotIsSum(u[..|u| - 1], v[..|u| - 1]);
    }
  }

  lemma {:induction false} DotCommutes(u: Vec, v: Vec)
    requires |u| == |v|
    ensures Dot(u, v) == Dot(v, u)
  {
    if u != [] {
      DotCommutes(u[..|u| - 1], v[..|u| - 1]);
    }
  }

  lemma {:induction false} DotNonNegative(u: Vec, v: Vec)
    requires |u| == |v| && NonNegative(u) && NonNegative(v)
    ensures Dot(u, v) >= 0.0
  {
    if u != [] {
      DotNonNegative(u[..|u| - 1], v[..|u| - 1]);
    }
  }

  lemma {:induction false} DotScaled(c: real, u: Vec, v: Vec)
    requires |u| == |v|
    ensures Dot(Scaled(c, u), v) == Mul(c, Dot(u, v))
  {
    if u != [] {
      var m := |u| - 1;
      assert Scaled(c, u)[..m] == Scaled(c, u[..m]);
      DotScaled(c, u[..m], v[..m]);
      assert (c * u[m]) * v[m] == c * (u[m] * v[m]);
    }
  }

  lemma {:induction false} DotPlus(u: Vec, v: Vec, w: Vec)
    requires |u| == |v| == |w|
    ensures Dot(Plus(u, v), w) == Dot(u, w) + Dot(v, w)
  {
    if u != [] {
      var m := |u| - 1;
      assert Plus(u, v)[..m] == Plus(u[..m], v[..m]);
      DotPlus(u[..m], v[..m], w[..m]);
      assert (u[m] + v[m]) * w[m] == u[m] * w[m] + v[m] * w[m];
    }
  }

  lemma {:induction false} DotZero(u: Vec, v: Vec)
    requires |u| == |v| && forall i | 0 <= i < |u| :: u[i] == 0.0
    ensures Dot(u, v) == 0.0
  {
    if u != [] {
      DotZero(u[..|u| - 1], v[..|u| - 1]);
    }
  }

  /** A vector with a single non-zero entry picks that entry's partner. */
  lemma {:induction false} DotSingle(u: Vec, v: Vec, k: nat)
    requires |u| == |v| && k < |u|
    requires forall i | 0 <= i < |u| && i != k :: u[i] == 0.0
    ensures Dot(u, v) == Mul(u[k], v[k])
  {
    var m := |u| - 1;
    if k == m {
      DotZero(u[..m], v[..m]);
    } else {
      DotSingle(u[..m], v[..m], k);
    }
  }

  lemma DotOnes(u: Vec)
    ensures Dot(u, Constant(|u|, 1.0)) == Sum(u)
  {
    DotIsSum(u, Constant(|u|, 1.0));
    assert Times(u, Constant(|u|, 1.0)) == u;
  }

  lemma DotSnoc(u: Vec, v: Vec, k: nat)
    requires |u| == |v| && 0 < k <= |u|
    ensures Dot(u[..k], v[..k]) == Dot(u[..k - 1], v[..k - 1]) + Mul(u[k - 1], v[k - 1])
  {
    assert u[..k][..k - 1] == u[..k - 1] && v[..k][..k - 1] == v[..k - 1];
  }

  lemma VecMatSnoc(u: Vec, a: Mat, n: nat)
    requires u != [] && IsMatrix(a, |u|, n)
    ensures VecMat(u, a, n) == Plus(VecMat(u[..|u| - 1], a[..|u| - 1], n), Scaled(u[|u| - 1], a[|u| - 1]))
  {
    var m := |u| - 1;
    forall j | 0 <= j < n
      ensures VecMat(u, a, n)[j] == Plus(VecMat(u[..m], a[..m], n), Scaled(u[m], a[m]))[j]
    {
      assert Column(a, j)[..m] == Column(a[..m], j);
    }
  }

  /** (u M) . v == u . (M v): the law that ties a forward to a backward pass. */
  lemma {:induction false} Adjoint(u: Vec, a: Mat, v: Vec)
    requires IsMatrix(a, |u|, |v|)
    ensures Dot(VecMat(u, a, |v|), v) == Dot(u, MatVec(a, v))
  {
    var n := |v|;
    if u == [] {
      DotZero(VecMat(u, a, n), v);
    } else {
      var m := |u| - 1;
      VecMatSnoc(u, a, n);
      DotPlus(VecMat(u[..m], a[..m], n), Scaled(u[m], a[m]), v);
      DotScaled(u[m], a[m], v);
      Adjoint(u[..m], a[..m], v);
      assert MatVec(a, v)[..m] == MatVec(a[..m], v);
    }
  }

  /** Moving a factor across a dot product. */
  lemma {:induction false} DotTimes(u: Vec, v: Vec, w: Vec)
    requires |u| == |v| == |w|
    ensures Dot(Times(u, v), w) == Dot(u, Times(v, w))
  {
    if u != [] {
      var m := |u| - 1;
      assert Times(u, v)[..m] == Times(u[..m], v[..m]);
      assert Times(v, w)[..m] == Times(v[..m], w[..m]);
      DotTimes(u[..m], v[..m], w[..m]);
      assert (u[m] * v[m]) * w[m] == u[m] * (v[m] * w[m]);
    }
  }

  lemma VecMatNonNegative(u: Vec, a: Mat, columns: nat)
    requires IsMatrix(a, |u|, columns) && NonNegative(u) && NonNegativeMatrix(a)
    ensures NonNegative(VecMat(u, a, columns))
  {
    forall j | 0 <= j < columns
      ensures VecMat(u, a, columns)[j] >= 0.0
    {
      forall i | 0 <= i < |a|
        ensures Column(a, j)[i] >= 0.0
      {
        assert NonNegative(a[i]);
      }
      DotNonNegative(u, Column(a, j));
    }
  }

  lemma MatVecNonNegative(a: Mat, v: Vec)
    requires IsMatrix(a, |a|, |v|) && NonNegative(v) && NonNegativeMatrix(a)
    ensures NonNegative(MatVec(a, v))
  {
    forall i | 0 <= i < |a|
      ensures MatVec(a, v)[i] >= 0.0
    {
      DotNonNegative(a[i], v);
    }
  }

  lemma VecMatScaled(c: real, u: Vec, a: Mat, columns: nat)
    requires IsMatrix(a, |u|, columns)
    ensures VecMat(Scaled(c, u), a, columns) == Scaled(c, VecMat(u, a, columns))
  {
    forall j | 0 <= j < columns
      ensures VecMat(Scaled(c, u), a, columns)[j] == Scaled(c, VecMat(u, a, columns))[j]
    {
      DotScaled(c, u, Column(a, j));
    }
  }

  lemma MatVecScaled(c: real, a: Mat, v: Vec)
    requires IsMatrix(a, |a|, |v|)
    ensures MatVec(a, Scaled(c, v)) == Scaled(c, MatVec(a, v))
  {
    forall i | 0 <= i < |a|
      ensures MatVec(a, Scaled(c, v))[i] == Scaled(c, MatVec(a, v))[i]
    {
      DotCommutes(a[i], Scaled(c, v));
      DotScaled(c, v, a[i]);
      DotCommutes(v, a[i]);
    }
  }

  lemma PairSum(x: real, y: real)
    ensures Sum([x, y]) == x + y
  {
    assert [x, y][..1] == [x] && [x][..0] == [];
    assert Sum([x]) == x;
  }

  lemma PairDot(x: real, y: real, u: real, v: real)
    ensures Dot([x, y], [u, v]) == x * u + y * v
  {
    assert [x, y][..1] == [x] && [x][..0] == [] && [u, v][..1] == [u] && [u][..0] == [];
    assert Dot([x], [u]) == x * u;
  }

  lemma MeanTimesCount(v: Vec)
    requires v != []
    ensures Mul(|v| as real, Mean(v)) == Sum(v)
  {
    assert (|v| as real) * (Sum(v) / |v| as real) == Sum(v);
  }

  /** Squares around a centre, from the squares around zero and the sum. */
  lemma {:induction false} SquaresMoved(v: Vec, c: real)
    ensures Sum(SquaresAround(v, c)) ==
            Sum(SquaresAround(v, 0.0)) - 2.0 * Mul(c, Sum(v)) + Mul(|v| as real, Mul(c, c))
  {
    hide Mul;
    if v == [] {
      ZeroTimes(Mul(c, c));
      MulCommutes(c, 0.0);
      ZeroTimes(c);
    } else {
      var m := |v| - 1;
      SquaresMoved(v[..m], c);
      assert SquaresAround(v, c)[..m] == SquaresAround(v[..m], c);
      assert SquaresAround(v, 0.0)[..m] == SquaresAround(v[..m], 0.0);
      SquareMoved(v[m], c);
      MulCommutes(c, Sum(v));
      Distribute(Sum(v[..m]), v[m], c);
      MulCommutes(c, Sum(v[..m]));
      MulCommutes(c, v[m]);
      Distribute(m as real, 1.0, Mul(c, c));
      MulCommutes(1.0, Mul(c, c));
      MulOne(Mul(c, c));
    }
  }

  lemma SquareMoved(x: real, c: real)
    ensures Mul(x - c, x - c) == Mul(x - 0.0, x - 0.0) - 2.0 * Mul(c, x) + Mul(c, c)
  {
  }

  /** The variance from the first two moments: n times it is the sum of the squares less the sum
      times the mean. */
  lemma VarianceByMoments(v: Vec)
    requires v != []
    ensures Mul(|v| as real, Variance(v)) == Sum(SquaresAround(v, 0.0)) - Mul(Mean(v), Sum(v))
  {
    hide Mul, Mean;
    var n, c := |v| as real, Mean(v);
    SquaresMoved(v, c);
    MeanTimesCount(v);
    Reassociate(n, c, c);
    MulCommutes(Sum(v), c);
    MeanTimesCount(SquaresAround(v, c));
  }
}
