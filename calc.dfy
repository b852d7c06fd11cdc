/** The priority engine of the poll: from a pairwise matrix to a priority
    (weight) vector, an approximate principal eigenvalue and Saaty's
    consistency ratio. Each step of the source is a method with accumulating
    loops, proved against the reference functions defined first. Numbers are
    exact reals; the divisions the source performs unguarded are given the
    preconditions that keep their divisors non-zero. */
module Calc {
  import opened Sums
  import opened ArrayHelper

  /** Saaty's random-consistency index for matrices of size 1 to 10. */
  const ConsistencyIndex: seq<real> := [0.0, 0.0, 0.58, 0.9, 1.12, 1.24, 1.32, 1.41, 1.45, 1.49]

  /** What the priority engine returns for the eigenvalue step. */
  datatype Eigen = Eigen(avgEigenValue: real, eigenVector: seq<real>, maxEigenValue: real)

  /** What the priority engine returns for a poll. */
  datatype Results = Results(resultColumn: array<real>, consistencyRatio: real, eigen: Eigen)

  // ---------------------------------------------------------------------
  // Reference functions

  /** A matrix the poll can produce: square, no negative cell (answered cells
      are positive, unanswered ones hold 0) and 1 on the diagonal. */
  predicate WellFormed(m: Matrix) {
    && Square(m)
    && (forall i, j :: 0 <= i < |m| && 0 <= j < |m| ==> m[i][j] >= 0.0)
    && (forall i :: 0 <= i < |m| ==> m[i][i] == 1.0)
  }

  /** Cell (i, j) divided by the sum of column j. */
  function Normalized(m: Matrix, sums: seq<real>): (r: Matrix)
    requires Square(m) && |sums| == |m|
    requires forall j :: 0 <= j < |sums| ==> sums[j] != 0.0
    ensures |r| == |m| && Square(r)
  {
    seq(|m|, i requires 0 <= i < |m| =>
      seq(|m|, j requires 0 <= j < |m| => m[i][j] / sums[j]))
  }

  /** The mean of every row. */
  function Averages(m: Matrix): (r: seq<real>)
    requires Square(m)
    ensures |r| == |m|
  {
    seq(|m|, i requires 0 <= i < |m| => Sum(m[i]) / |m| as real)
  }

  /** The priority weights: the row means of the column-normalised matrix. */
  function Weights(m: Matrix): (w: seq<real>)
    requires WellFormed(m)
    ensures |w| == |m|
  {
    ColumnSumsAtLeastOne(m);
    Averages(Normalized(m, ColumnSums(m, |m|)))
  }

  /** Row i of `m` multiplied entrywise by `w`, in the source's operand order. */
  function Products(m: Matrix, w: seq<real>, i: nat): (r: seq<real>)
    requires Square(m) && |w| == |m| && i < |m|
    ensures |r| == |m|
  {
    seq(|m|, j requires 0 <= j < |m| => w[j] * m[i][j])
  }

  /** The matrix-vector product m·w. */
  function MatVec(m: Matrix, w: seq<real>): (r: seq<real>)
    requires Square(m) && |w| == |m|
    ensures |r| == |m|
  {
    seq(|m|, i requires 0 <= i < |m| => Sum(Products(m, w, i)))
  }

  /** The per-row eigenvalue estimates (m·w)[i] / w[i]. */
  function Ratios(mw: seq<real>, w: seq<real>): (r: seq<real>)
    requires |mw| == |w| && forall i :: 0 <= i < |w| ==> w[i] != 0.0
    ensures |r| == |w|
  {
    seq(|w|, i requires 0 <= i < |w| => mw[i] / w[i])
  }

  function Mean(s: seq<real>): real
    requires |s| > 0
  {
    Sum(s) / |s| as real
  }

  /** The running maximum of the source, which starts from 0: the largest
      entry, or 0 when no entry is positive. */
  function MaxFromZero(s: seq<real>): (r: real)
    ensures r >= 0.0
    ensures forall i :: 0 <= i < |s| ==> s[i] <= r
    ensures r == 0.0 || exists i :: 0 <= i < |s| && s[i] == r
  {
    if s == [] then 0.0
    else
      var rest := MaxFromZero(s[..|s| - 1]);
      assert forall i :: 0 <= i < |s| - 1 ==> s[..|s| - 1][i] == s[i];
      if s[|s| - 1] > rest then s[|s| - 1] else rest
  }

  /** Extending a prefix by one entry takes the larger of the running maximum
      and that entry: the step of the source's maximum loop. */
  lemma MaxFromZeroPrefix(s: seq<real>, k: nat)
    requires k < |s|
    ensures MaxFromZero(s[..k + 1]) == if s[k] > MaxFromZero(s[..k]) then s[k] else MaxFromZero(s[..k])
  {
    assert s[..k + 1][..k] == s[..k];
  }

  /** CR = CI / RI(n), with CI = (avg - n) / (n - 1); RI(n) is non-zero
      exactly for the sizes 3 to 10. */
  function ConsistencyRatio(avgEigenValue: real, n: nat): real
    requires 3 <= n <= |ConsistencyIndex|
  {
    RandomIndexDefined(n - 1);
    var ci := (avgEigenValue - n as real) / (n - 1) as real;
    ci / ConsistencyIndex[n - 1]
  }

  /** The engine's two divisions, one after the other, give the ratio. */
  lemma RatioSteps(avgEigenValue: real, n: nat, ci: real, cr: real)
    requires 3 <= n <= |ConsistencyIndex|
    requires ci == (avgEigenValue - n as real) / (n - 1) as real
    requires ConsistencyIndex[n - 1] != 0.0 && cr == ci / ConsistencyIndex[n - 1]
    ensures cr == ConsistencyRatio(avgEigenValue, n)
  {
  }

  /** Dividing by a positive number keeps the sign. */
  lemma QuotientSign(a: real, b: real)
    requires b > 0.0
    ensures a / b >= 0.0 <==> a >= 0.0
  {
    assert (a / b) * b == a;
  }

  /** The ratio is non-negative exactly when the average estimate is at
      least n: CI has the sign of avg - n, and RI(n) is positive. */
  lemma RatioSign(avgEigenValue: real, n: nat)
    requires 3 <= n <= |ConsistencyIndex|
    ensures ConsistencyRatio(avgEigenValue, n) >= 0.0 <==> avgEigenValue >= n as real
  {
    RandomIndexDefined(n - 1);
    var ci := (avgEigenValue - n as real) / (n - 1) as real;
    QuotientSign(avgEigenValue - n as real, (n - 1) as real);
    QuotientSign(ci, ConsistencyIndex[n - 1]);
  }

  /** The table has ten entries, and entry k is positive exactly when k >= 2,
      i.e. for the sizes 3 to 10: the ratio is defined for no other size. */
  lemma RandomIndexDefined(k: nat)
    requires k < |ConsistencyIndex|
    ensures |ConsistencyIndex| == 10
    ensures ConsistencyIndex[k] > 0.0 <==> k >= 2
    ensures ConsistencyIndex[k] >= 0.0
  {
  }

  /** The whole computation on matrix values, as one record. */
  datatype Priorities = Priorities(
    weights: seq<real>, eigenVector: seq<real>, avgEigenValue: real,
    maxEigenValue: real, consistencyRatio: real)

  function PrioritiesOf(m: Matrix): Priorities
    requires WellFormed(m) && 3 <= |m| <= |ConsistencyIndex|
  {
    var w := Weights(m);
    WeightsAreDistribution(m);
    var v := Ratios(MatVec(m, w), w);
    Priorities(w, v, Mean(v), MaxFromZero(v), ConsistencyRatio(Mean(v), |m|))
  }

  // ---------------------------------------------------------------------
  // Properties of the reference functions

  /** With non-negative cells and 1 on the diagonal every column sums to at
      least 1, so normalising never divides by zero. */
  lemma ColumnSumsAtLeastOne(m: Matrix)
    requires WellFormed(m)
    ensures forall j :: 0 <= j < |m| ==> ColumnSums(m, |m|)[j] >= 1.0
  {
    forall j | 0 <= j < |m|
      ensures ColumnSums(m, |m|)[j] >= 1.0
    {
      SumAtLeastEntry(Column(m, j), j);
    }
  }

  /** Every column of the normalised matrix sums to 1. */
  lemma NormalizedColumnsSumToOne(m: Matrix)
    requires WellFormed(m)
    ensures var sums := ColumnSums(m, |m|);
      (forall j :: 0 <= j < |m| ==> sums[j] > 0.0) &&
      forall j :: 0 <= j < |m| ==> Sum(Column(Normalized(m, sums), j)) == 1.0
  {
    ColumnSumsAtLeastOne(m);
    var sums := ColumnSums(m, |m|);
    forall j | 0 <= j < |m|
      ensures Sum(Column(Normalized(m, sums), j)) == 1.0
    {
      SumDivided(Column(m, j), Column(Normalized(m, sums), j), sums[j]);
    }
  }

  lemma QuotientOfEqual(x: real, k: real)
    requires k != 0.0 && x == k
    ensures x / k == 1.0
  {
  }

  /** The row means add up to the total of the matrix divided by its size. */
  lemma SumOfRowMeans(norm: Matrix, w: seq<real>)
    requires |norm| > 0 && |w| == |norm|
    requires forall i :: 0 <= i < |norm| ==> w[i] == Sum(norm[i]) / |norm| as real
    ensures Sum(w) == Sum(RowSums(norm)) / |norm| as real
  {
    SumDivided(RowSums(norm), w, |norm| as real);
  }

  /** A square matrix whose every column sums to 1 has total n. */
  lemma TotalOfUnitColumns(norm: Matrix)
    requires Square(norm)
    requires forall j :: 0 <= j < |norm| ==> Sum(Column(norm, j)) == 1.0
    ensures Sum(RowSums(norm)) == |norm| as real
  {
    RowTotalIsColumnTotal(norm, |norm|);
    SumConstant(ColumnSums(norm, |norm|), 1.0);
  }

  /** Row means of a square matrix whose every column sums to 1 add up to 1. */
  lemma RowMeansSumToOne(norm: Matrix, w: seq<real>)
    requires Square(norm) && |norm| > 0 && |w| == |norm|
    requires forall j :: 0 <= j < |norm| ==> Sum(Column(norm, j)) == 1.0
    requires forall i :: 0 <= i < |norm| ==> w[i] == Sum(norm[i]) / |norm| as real
    ensures Sum(w) == 1.0
  {
    var total, n := Sum(RowSums(norm)), |norm| as real;
    TotalOfUnitColumns(norm);
    QuotientOfEqual(total, n);
    SumOfRowMeans(norm, w);
  }

  /** The weights sum to exactly 1. */
  lemma WeightsSumToOne(m: Matrix)
    requires WellFormed(m) && |m| > 0
    ensures Sum(Weights(m)) == 1.0
  {
    NormalizedColumnsSumToOne(m);
    var norm := Normalized(m, ColumnSums(m, |m|));
    assert Weights(m) == Averages(norm);
    RowMeansSumToOne(norm, Weights(m));
  }

  /** Row i of the normalised matrix has a positive sum: its entries are
      non-negative and entry i is 1 / (sum of column i). */
  lemma NormalizedRowPositive(m: Matrix, sums: seq<real>, i: nat)
    requires WellFormed(m) && |sums| == |m| && i < |m|
    requires forall j :: 0 <= j < |sums| ==> sums[j] >= 1.0
    ensures Sum(Normalized(m, sums)[i]) > 0.0
  {
    var row := Normalized(m, sums)[i];
    forall j | 0 <= j < |m|
      ensures row[j] >= 0.0
    {
      assert row[j] == m[i][j] / sums[j];
    }
    assert row[i] == 1.0 / sums[i];
    SumAtLeastEntry(row, i);
  }

  /** Every weight is positive: row i of the normalised matrix holds the
      positive diagonal entry 1 / (sum of column i). */
  lemma WeightsPositive(m: Matrix)
    requires WellFormed(m)
    ensures forall i :: 0 <= i < |m| ==> Weights(m)[i] > 0.0
  {
    var sums := ColumnSums(m, |m|);
    ColumnSumsAtLeastOne(m);
    forall i | 0 <= i < |m|
      ensures Weights(m)[i] > 0.0
    {
      NormalizedRowPositive(m, sums, i);
      QuotientPositive(Sum(Normalized(m, sums)[i]), |m| as real);
    }
  }

  /** The weights form a probability distribution: all positive, summing to
      exactly 1. */
  lemma WeightsAreDistribution(m: Matrix)
    requires WellFormed(m) && |m| > 0
    ensures Sum(Weights(m)) == 1.0
    ensures forall i :: 0 <= i < |m| ==> Weights(m)[i] > 0.0
  {
    WeightsSumToOne(m);
    WeightsPositive(m);
  }

  /** A perfectly consistent matrix: cell (i, j) is v[i] / v[j] for a
      positive scale v. */
  predicate ConsistentWith(m: Matrix, v: seq<real>) {
    && Square(m) && |v| == |m|
    && (forall i :: 0 <= i < |v| ==> v[i] > 0.0)
    && (forall i, j :: 0 <= i < |m| && 0 <= j < |m| ==> m[i][j] == v[i] / v[j])
  }

  lemma QuotientOfQuotients(a: real, b: real, c: real)
    requires b != 0.0 && c != 0.0
    ensures (a / b) / (c / b) == a / c
  {
  }

  lemma QuotientPositive(a: real, b: real)
    requires a > 0.0 && b > 0.0
    ensures a / b > 0.0
  {
    assert (a / b) * b == a;
  }

  /** A perfectly consistent matrix is one the poll can produce, and its
      scale has a positive total. */
  lemma ConsistentIsWellFormed(m: Matrix, v: seq<real>)
    requires ConsistentWith(m, v)
    ensures WellFormed(m)
    ensures |m| > 0 ==> Sum(v) > 0.0
  {
    forall i, j | 0 <= i < |m| && 0 <= j < |m|
      ensures m[i][j] >= 0.0
    {
      QuotientPositive(v[i], v[j]);
    }
    forall i | 0 <= i < |m|
      ensures m[i][i] == 1.0
    {
      QuotientOfEqual(v[i], v[i]);
    }
    if |m| > 0 {
      SumAtLeastEntry(v, 0);
    }
  }

  /** Column j of a perfectly consistent matrix sums to (v[0] + ... + v[n-1]) / v[j]. */
  lemma ConsistentColumnSums(m: Matrix, v: seq<real>)
    requires ConsistentWith(m, v)
    ensures WellFormed(m)
    ensures forall j :: 0 <= j < |m| ==> ColumnSums(m, |m|)[j] == Sum(v) / v[j]
  {
    ConsistentIsWellFormed(m, v);
    forall j | 0 <= j < |m|
      ensures ColumnSums(m, |m|)[j] == Sum(v) / v[j]
    {
      SumDivided(v, Column(m, j), v[j]);
    }
  }

  /** The mean of a row whose entries all equal `x` is `x`. */
  lemma ConstantMean(s: seq<real>, x: real)
    requires |s| > 0 && forall j :: 0 <= j < |s| ==> s[j] == x
    ensures Sum(s) / |s| as real == x
  {
    var k := |s| as real;
    SumConstant(s, x);
    ScaledQuotient(x, k);
    assert k * x == x * k;
  }

  /** Row i of the normalised consistent matrix is constantly v[i] / total. */
  lemma ConsistentNormalizedRow(m: Matrix, v: seq<real>, sums: seq<real>, total: real, i: nat)
    requires ConsistentWith(m, v) && i < |m| && |sums| == |m| && total > 0.0
    requires forall j :: 0 <= j < |m| ==> sums[j] == total / v[j]
    ensures forall j :: 0 <= j < |m| ==> sums[j] != 0.0
    ensures forall j :: 0 <= j < |m| ==> Normalized(m, sums)[i][j] == v[i] / total
  {
    forall j | 0 <= j < |m|
      ensures sums[j] != 0.0
    {
      QuotientPositive(total, v[j]);
    }
    forall j | 0 <= j < |m|
      ensures Normalized(m, sums)[i][j] == v[i] / total
    {
      QuotientOfQuotients(v[i], v[j], total);
    }
  }

  /** For a perfectly consistent matrix the weights recover the scale:
      weight i is v[i] / (v[0] + ... + v[n-1]). */
  lemma ConsistentWeights(m: Matrix, v: seq<real>)
    requires ConsistentWith(m, v) && |m| > 0
    ensures WellFormed(m) && Sum(v) > 0.0
    ensures forall i :: 0 <= i < |m| ==> Weights(m)[i] == v[i] / Sum(v)
  {
    var n := |m|;
    var total := Sum(v);
    ConsistentIsWellFormed(m, v);
    ConsistentColumnSums(m, v);
    var sums := ColumnSums(m, n);
    ColumnSumsAtLeastOne(m);
    var norm := Normalized(m, sums);
    var w := Weights(m);
    assert w == Averages(norm);
    forall i | 0 <= i < n
      ensures w[i] == v[i] / total
    {
      ConsistentNormalizedRow(m, v, sums, total, i);
      ConstantMean(norm[i], v[i] / total);
    }
  }

  lemma CrossCancel(a: real, b: real, t: real)
    requires b != 0.0 && t != 0.0
    ensures (b / t) * (a / b) == a / t
  {
  }

  /** One product w[j] * m[i][j] of a perfectly consistent matrix against the
      weights w[j] = v[j] / total. */
  lemma ConsistentProduct(m: Matrix, v: seq<real>, w: seq<real>, total: real, i: nat, j: nat)
    requires ConsistentWith(m, v) && i < |m| && j < |m| && |w| == |m| && total > 0.0
    requires w[j] == v[j] / total
    ensures Products(m, w, i)[j] == v[i] / total
  {
    assert m[i][j] == v[i] / v[j];
    CrossCancel(v[i], v[j], total);
  }

  lemma ScaledQuotient(k: real, x: real)
    requires x != 0.0
    ensures (k * x) / x == k
  {
  }

  /** A row whose every product w[j] * m[i][j] equals w[i] gives the
      eigenvalue estimate n. */
  lemma UniformRowEstimate(m: Matrix, w: seq<real>, i: nat)
    requires Square(m) && |w| == |m| && i < |m| && w[i] != 0.0
    requires forall j :: 0 <= j < |m| ==> Products(m, w, i)[j] == w[i]
    ensures MatVec(m, w)[i] / w[i] == |m| as real
  {
    SumConstant(Products(m, w, i), w[i]);
    ScaledQuotient(|m| as real, w[i]);
  }

  /** Against the weights w[j] = v[j] / total, every row of a perfectly
      consistent matrix gives the eigenvalue estimate n. */
  lemma ConsistentRatiosFor(m: Matrix, v: seq<real>, w: seq<real>, total: real)
    requires ConsistentWith(m, v) && |w| == |m| && total > 0.0
    requires forall j :: 0 <= j < |w| ==> w[j] == v[j] / total && w[j] != 0.0
    ensures forall i :: 0 <= i < |m| ==> Ratios(MatVec(m, w), w)[i] == |m| as real
  {
    forall i | 0 <= i < |m|
      ensures Ratios(MatVec(m, w), w)[i] == |m| as real
    {
      forall j | 0 <= j < |m|
        ensures Products(m, w, i)[j] == w[i]
      {
        ConsistentProduct(m, v, w, total, i, j);
      }
      UniformRowEstimate(m, w, i);
    }
  }

  /** For a perfectly consistent matrix every eigenvalue estimate is exactly n. */
  lemma ConsistentRatios(m: Matrix, v: seq<real>)
    requires ConsistentWith(m, v) && |m| > 0
    ensures WellFormed(m)
    ensures forall i :: 0 <= i < |m| ==> Weights(m)[i] > 0.0
    ensures forall i :: 0 <= i < |m| ==>
      Ratios(MatVec(m, Weights(m)), Weights(m))[i] == |m| as real
  {
    ConsistentWeights(m, v);
    WeightsPositive(m);
    ConsistentRatiosFor(m, v, Weights(m), Sum(v));
  }

  /** When every estimate is the same positive `k`, so are their mean and
      their running maximum. */
  lemma UniformEstimates(r: seq<real>, k: real)
    requires |r| > 0 && k > 0.0
    requires forall i :: 0 <= i < |r| ==> r[i] == k
    ensures Mean(r) == k && MaxFromZero(r) == k
  {
    ConstantMean(r, k);
  }

  /** An average estimate of exactly n gives CI = 0 and so CR = 0. */
  lemma ZeroRatioAtN(n: nat)
    requires 3 <= n <= |ConsistencyIndex|
    ensures ConsistencyRatio(n as real, n) == 0.0
  {
  }

  /** For a perfectly consistent matrix the weights recover the scale, every
      eigenvalue estimate is n, so the average and the maximum are n and the
      consistency ratio is 0. */
  lemma ConsistentMatrixHasZeroRatio(m: Matrix, v: seq<real>)
    requires ConsistentWith(m, v) && 3 <= |m| <= |ConsistencyIndex|
    ensures WellFormed(m) && Sum(v) > 0.0
    ensures var p := PrioritiesOf(m);
      && (forall i :: 0 <= i < |m| ==> p.weights[i] == v[i] / Sum(v))
      && (forall i :: 0 <= i < |m| ==> p.eigenVector[i] == |m| as real)
      && p.avgEigenValue == |m| as real
      && p.maxEigenValue == |m| as real
      && p.consistencyRatio == 0.0
  {
    var n := |m|;
    ConsistentWeights(m, v);
    ConsistentRatios(m, v);
    var p := PrioritiesOf(m);
    assert p.eigenVector == Ratios(MatVec(m, Weights(m)), Weights(m));
    UniformEstimates(p.eigenVector, n as real);
    ZeroRatioAtN(n);
  }

  // ---------------------------------------------------------------------
  // A completed poll is never better than consistent

  /** Every cell is positive and the reciprocal of its mirror. */
  predicate MirrorReciprocal(x: Matrix) {
    Square(x) && forall i, j :: 0 <= i < |x| && 0 <= j < |x| ==> x[i][j] > 0.0 && x[i][j] * x[j][i] == 1.0
  }

  /** The matrix of a completed poll: well formed (1 on the diagonal), and
      every cell positive and the reciprocal of its mirror. The poll's own
      form of it is `Ahp.Reciprocal` with no cell left at 0. */
  predicate PositiveReciprocal(m: Matrix) {
    WellFormed(m) && MirrorReciprocal(m)
  }

  /** Cell (i, j) is the product w[j] * m[i][j] relative to w[i]. */
  function Relative(m: Matrix, w: seq<real>): (x: Matrix)
    requires Square(m) && |w| == |m| && forall k :: 0 <= k < |w| ==> w[k] != 0.0
    ensures |x| == |m| && Square(x)
  {
    seq(|m|, i requires 0 <= i < |m| =>
      seq(|m|, j requires 0 <= j < |m| => w[j] * m[i][j] / w[i]))
  }

  /** Estimate i is the sum of row i of the relative matrix. */
  lemma RatiosAreRelativeRowSums(m: Matrix, w: seq<real>)
    requires Square(m) && |w| == |m| && forall k :: 0 <= k < |w| ==> w[k] != 0.0
    ensures Ratios(MatVec(m, w), w) == RowSums(Relative(m, w))
  {
    var x := Relative(m, w);
    forall i | 0 <= i < |m|
      ensures Ratios(MatVec(m, w), w)[i] == RowSums(x)[i]
    {
      SumDivided(Products(m, w, i), x[i], w[i]);
    }
  }

  lemma CrossQuotient(a: real, b: real, c: real, d: real)
    requires a != 0.0 && b != 0.0
    ensures (b * c / a) * (a * d / b) == c * d
  {
  }

  /** Mirrored relative cells are positive reciprocals of each other. */
  lemma RelativeMirror(m: Matrix, w: seq<real>, i: nat, j: nat)
    requires PositiveReciprocal(m) && |w| == |m| && i < |m| && j < |m|
    requires forall k :: 0 <= k < |w| ==> w[k] > 0.0
    ensures Relative(m, w)[i][j] > 0.0 && Relative(m, w)[j][i] > 0.0
    ensures Relative(m, w)[i][j] * Relative(m, w)[j][i] == 1.0
  {
    var x := Relative(m, w);
    CrossQuotient(w[i], w[j], m[i][j], m[j][i]);
    assert x[i][j] == w[j] * m[i][j] / w[i];
    assert x[j][i] == w[i] * m[j][i] / w[j];
    QuotientPositive(w[j] * m[i][j], w[i]);
    QuotientPositive(w[i] * m[j][i], w[j]);
  }

  /** Two positive reals whose product is 1 add up to at least 2. */
  lemma MirrorPairAtLeastTwo(x: real, y: real)
    requires x > 0.0 && y > 0.0 && x * y == 1.0
    ensures x + y >= 2.0
  {
    assert (x - 1.0) * (x - 1.0) * y == x * (x * y) - 2.0 * (x * y) + y;
    assert (x - 1.0) * (x - 1.0) * y >= 0.0;
  }

  /** Against positive weights, the relative matrix of a completed poll's
      matrix has positive cells that are reciprocals of their mirrors. */
  lemma RelativeIsMirrorReciprocal(m: Matrix, w: seq<real>)
    requires PositiveReciprocal(m) && |w| == |m|
    requires forall k :: 0 <= k < |w| ==> w[k] > 0.0
    ensures MirrorReciprocal(Relative(m, w))
  {
    var x := Relative(m, w);
    forall i, j | 0 <= i < |m| && 0 <= j < |m|
      ensures x[i][j] > 0.0
    {
      RelativeMirror(m, w, i, j);
    }
    forall i, j | 0 <= i < |m| && 0 <= j < |m|
      ensures x[i][j] * x[j][i] == 1.0
    {
      RelativeMirror(m, w, i, j);
    }
  }

  /** Each cell and its mirror add up to at least 2. */
  lemma MirrorPairsAtLeastTwo(x: Matrix, i: nat)
    requires MirrorReciprocal(x) && i < |x|
    ensures forall j :: 0 <= j < |x| ==> x[i][j] + x[j][i] >= 2.0
  {
    forall j | 0 <= j < |x|
      ensures x[i][j] + x[j][i] >= 2.0
    {
      MirrorPairAtLeastTwo(x[i][j], x[j][i]);
    }
  }

  /** Row i plus column i add up to at least 2n when each cell of row i
      and its mirror add up to at least 2. */
  lemma RowAndColumnAtLeast(x: Matrix, i: nat)
    requires Square(x) && i < |x|
    requires forall j :: 0 <= j < |x| ==> x[i][j] + x[j][i] >= 2.0
    ensures RowSums(x)[i] + ColumnSums(x, |x|)[i] >= 2.0 * |x| as real
  {
    var pairs := seq(|x|, j requires 0 <= j < |x| => x[i][j] + x[j][i]);
    SumPointwise(x[i], Column(x, i), pairs);
    SumAtLeast(pairs, 2.0);
  }

  /** A matrix of positive cells, each the reciprocal of its mirror, adds up
      to at least n * n. */
  lemma MirrorTotalAtLeastSquare(x: Matrix)
    requires MirrorReciprocal(x)
    ensures Sum(RowSums(x)) >= |x| as real * |x| as real
  {
    MirrorRowsAndColumns(x);
    TotalAtLeastSquare(x);
  }

  /** A square matrix whose row i and column i add up to at least 2n, for
      every i, has a total of at least n * n: counted by rows and by columns
      it has the same total. */
  lemma TotalAtLeastSquare(x: Matrix)
    requires Square(x)
    requires PairedAtLeast(RowSums(x), ColumnSums(x, |x|), 2.0 * |x| as real)
    ensures Sum(RowSums(x)) >= |x| as real * |x| as real
  {
    RowTotalIsColumnTotal(x, |x|);
    PairedTotals(RowSums(x), ColumnSums(x, |x|), |x|);
  }

  /** In such a matrix, row i and column i add up to at least 2n. */
  lemma MirrorRowsAndColumns(x: Matrix)
    requires MirrorReciprocal(x)
    ensures PairedAtLeast(RowSums(x), ColumnSums(x, |x|), 2.0 * |x| as real)
  {
    forall i | 0 <= i < |x|
      ensures RowSums(x)[i] + ColumnSums(x, |x|)[i] >= 2.0 * |x| as real
    {
      MirrorPairsAtLeastTwo(x, i);
      RowAndColumnAtLeast(x, i);
    }
  }

  /** Against any positive weights, the estimates of a completed poll's
      matrix add up to at least n * n. */
  lemma EstimatesAtLeastSquare(m: Matrix, w: seq<real>)
    requires PositiveReciprocal(m) && |w| == |m|
    requires forall k :: 0 <= k < |w| ==> w[k] > 0.0
    ensures Sum(Ratios(MatVec(m, w), w)) >= |m| as real * |m| as real
  {
    RelativeIsMirrorReciprocal(m, w);
    MirrorTotalAtLeastSquare(Relative(m, w));
    RatiosAreRelativeRowSums(m, w);
  }

  /** A total of at least n * n over n entries has a mean of at least n. */
  lemma MeanAtLeast(s: seq<real>)
    requires |s| > 0 && Sum(s) >= |s| as real * |s| as real
    ensures Mean(s) >= |s| as real
  {
    var k := |s| as real;
    QuotientSign(Sum(s) - k * k, k);
    assert (Sum(s) - k * k) / k == Sum(s) / k - k;
  }

  /** For a completed poll the average estimate is at least n, so the
      consistency ratio is never negative: no matrix is more than perfectly
      consistent. */
  lemma CompletedRatioNonNegative(m: Matrix)
    requires PositiveReciprocal(m) && 3 <= |m| <= |ConsistencyIndex|
    ensures var p := PrioritiesOf(m); p.avgEigenValue >= |m| as real && p.consistencyRatio >= 0.0
  {
    var w := Weights(m);
    WeightsPositive(m);
    var v := Ratios(MatVec(m, w), w);
    EstimatesAtLeastSquare(m, w);
    MeanAtLeast(v);
    RatioSign(Mean(v), |m|);
  }

  // ---------------------------------------------------------------------
  // The engine, step by step

  /** The sum of each column. */
  method CalculateSumRow(resultArray: seq<array<real>>) returns (sumArray: array<real>)
    requires SquareRows(resultArray)
    ensures fresh(sumArray) && sumArray.Length == |resultArray|
    ensures sumArray[..] == ColumnSums(Cells(resultArray), |resultArray|)
  {
    ghost var m := Cells(resultArray);
    var size := |resultArray|;
    sumArray := new real[size];
    var j := 0;
    while j < size
      invariant 0 <= j <= size
      invariant forall k :: 0 <= k < j ==> sumArray[k] == Sum(Column(m, k))
    {
      sumArray[j] := 0.0;
      var i := 0;
      while i < size
        invariant 0 <= i <= size
        invariant sumArray[j] == Sum(Column(m, j)[..i])
        invariant forall k :: 0 <= k < j ==> sumArray[k] == Sum(Column(m, k))
      {
        SumPrefix(Column(m, j), i);
        sumArray[j] := sumArray[j] + resultArray[i][j];
        i := i + 1;
      }
      assert Column(m, j)[..size] == Column(m, j);
      j := j + 1;
    }
  }

  /** A fresh matrix whose cell (i, j) is cell (i, j) of `resultArray`
      divided by the sum of column j. */
  method NormalizeResults(resultArray: seq<array<real>>, sumRow: array<real>)
    returns (resultArrayNormalized: seq<array<real>>)
    requires SquareRows(resultArray) && sumRow.Length == |resultArray|
    requires forall j :: 0 <= j < sumRow.Length ==> sumRow[j] != 0.0
    ensures SquareRows(resultArrayNormalized) && |resultArrayNormalized| == |resultArray|
    ensures DistinctRows(resultArrayNormalized)
    ensures forall i :: 0 <= i < |resultArrayNormalized| ==> fresh(resultArrayNormalized[i])
    ensures Cells(resultArrayNormalized) == Normalized(Cells(resultArray), sumRow[..])
  {
    ghost var m := Cells(resultArray);
    var size := |resultArray|;
    resultArrayNormalized := SetUpSquareArray(size);
    ghost var target := Normalized(m, sumRow[..]);
    var i := 0;
    while i < size
      invariant 0 <= i <= size
      invariant forall k :: 0 <= k < i ==> resultArrayNormalized[k][..] == target[k]
    {
      ghost var row := target[i];
      var j := 0;
      while j < size
        invariant 0 <= j <= size
        invariant forall k :: 0 <= k < i ==> resultArrayNormalized[k][..] == target[k]
        invariant resultArrayNormalized[i][..j] == row[..j]
      {
        assert row[j] == resultArray[i][j] / sumRow[j];
        resultArrayNormalized[i][j] := resultArray[i][j] / sumRow[j];
        assert resultArrayNormalized[i][..j + 1] == resultArrayNormalized[i][..j] + [row[j]];
        PrefixAppend(row, j);
        j := j + 1;
      }
      assert resultArrayNormalized[i][..] == resultArrayNormalized[i][..size];
      assert row[..size] == row;
      i := i + 1;
    }
    assert Cells(resultArrayNormalized) == target;
  }

  /** The mean of every row of the normalised matrix. */
  method CalculateResultAverages(resultArrayNormalized: seq<array<real>>)
    returns (resultColumn: array<real>)
    requires SquareRows(resultArrayNormalized)
    ensures fresh(resultColumn)
    ensures resultColumn[..] == Averages(Cells(resultArrayNormalized))
  {
    ghost var m := Cells(resultArrayNormalized);
    var size := |resultArrayNormalized|;
    resultColumn := new real[size];
    var i := 0;
    while i < size
      invariant 0 <= i <= size
      invariant forall k :: 0 <= k < i ==> resultColumn[k] == Sum(m[k]) / size as real
    {
      resultColumn[i] := 0.0;
      var j := 0;
      while j < size
        invariant 0 <= j <= size
        invariant resultColumn[i] == Sum(m[i][..j])
        invariant forall k :: 0 <= k < i ==> resultColumn[k] == Sum(m[k]) / size as real
      {
        SumPrefix(m[i], j);
        resultColumn[i] := resultColumn[i] + resultArrayNormalized[i][j];
        j := j + 1;
      }
      assert m[i][..size] == m[i];
      resultColumn[i] := resultColumn[i] / size as real;
      i := i + 1;
    }
  }

  /** The first half of the source's eigenvalue step: resultArray * resultColumn,
      each row's entries weighted by the column and added left to right. */
  method MultiplyByColumn(resultArray: seq<array<real>>, resultColumn: array<real>)
    returns (arr: seq<real>)
    requires SquareRows(resultArray) && resultColumn.Length == |resultArray|
    ensures arr == MatVec(Cells(resultArray), resultColumn[..])
  {
    ghost var m := Cells(resultArray);
    ghost var w := resultColumn[..];
    ghost var mw := MatVec(m, w);
    var size := |resultArray|;
    arr := [];
    var i := 0;
    while i < size
      invariant 0 <= i <= size && |arr| == i
      invariant arr == mw[..i]
    {
      ghost var row := Products(m, w, i);
      arr := arr + [0.0];
      var j := 0;
      while j < size
        invariant 0 <= j <= size && |arr| == i + 1
        invariant arr[..i] == mw[..i]
        invariant arr[i] == Sum(row[..j])
      {
        SumPrefix(row, j);
        assert resultArray[i][j] == m[i][j] && resultColumn[j] == w[j];
        arr := arr[i := arr[i] + resultColumn[j] * resultArray[i][j]];
        j := j + 1;
      }
      assert row[..size] == row;
      assert arr == mw[..i + 1];
      i := i + 1;
    }
    assert mw[..size] == mw;
  }

  /** m·w, the per-row ratios (m·w)[i] / w[i], their mean and their running
      maximum from 0. */
  method CalcPrincipalEigenValue(resultArray: seq<array<real>>, resultColumn: array<real>)
    returns (eigen: Eigen)
    requires SquareRows(resultArray) && resultColumn.Length == |resultArray| > 0
    requires forall i :: 0 <= i < resultColumn.Length ==> resultColumn[i] != 0.0
    ensures eigen.eigenVector == Ratios(MatVec(Cells(resultArray), resultColumn[..]), resultColumn[..])
    ensures eigen.avgEigenValue == Mean(eigen.eigenVector)
    ensures eigen.maxEigenValue == MaxFromZero(eigen.eigenVector)
    ensures eigen.maxEigenValue >= 0.0
    ensures forall i :: 0 <= i < |eigen.eigenVector| ==> eigen.eigenVector[i] <= eigen.maxEigenValue
  {
    ghost var w := resultColumn[..];
    ghost var mw := MatVec(Cells(resultArray), w);
    var size := |resultArray|;

    // resultArray * resultColumn
    var arr := MultiplyByColumn(resultArray, resultColumn);

    // the eigenvalue estimates
    ghost var ratios := Ratios(mw, w);
    var eigenVector: seq<real> := [];
    var eigenValue := 0.0;
    var maxEigenValue := 0.0;
    var i := 0;
    while i < size
      invariant 0 <= i <= size
      invariant eigenVector == ratios[..i]
      invariant eigenValue == Sum(ratios[..i])
      invariant maxEigenValue == MaxFromZero(ratios[..i])
    {
      var val := arr[i] / resultColumn[i];
      assert val == ratios[i];
      PrefixAppend(ratios, i);
      eigenVector := eigenVector + [val];
      eigenValue := eigenValue + val;
      SumPrefix(ratios, i);
      MaxFromZeroPrefix(ratios, i);
      maxEigenValue := if val > maxEigenValue then val else maxEigenValue;
      i := i + 1;
    }
    assert ratios[..size] == ratios;
    var avgEigenValue := eigenValue / size as real;
    assert avgEigenValue == Mean(ratios);
    eigen := Eigen(avgEigenValue, eigenVector, maxEigenValue);
  }

  /** The consistency ratio CI / RI(n) together with the eigenvalue results. */
  method CalcConsistencyRatio(resultArray: seq<array<real>>, resultColumn: array<real>)
    returns (cr: real, eigen: Eigen)
    requires SquareRows(resultArray) && resultColumn.Length == |resultArray|
    requires 3 <= |resultArray| <= |ConsistencyIndex|
    requires forall i :: 0 <= i < resultColumn.Length ==> resultColumn[i] != 0.0
    ensures eigen.eigenVector == Ratios(MatVec(Cells(resultArray), resultColumn[..]), resultColumn[..])
    ensures eigen.avgEigenValue == Mean(eigen.eigenVector)
    ensures eigen.maxEigenValue == MaxFromZero(eigen.eigenVector)
    ensures cr == ConsistencyRatio(eigen.avgEigenValue, |resultArray|)
  {
    eigen := CalcPrincipalEigenValue(resultArray, resultColumn);
    var options := |resultArray|;
    RandomIndexDefined(options - 1);
    var ci := (eigen.avgEigenValue - options as real) / (options - 1) as real;
    cr := ci / ConsistencyIndex[options - 1];
    RatioSteps(eigen.avgEigenValue, options, ci, cr);
  }

  /** The results of a poll: the weights, the consistency ratio and the
      eigenvalue details, all as the reference functions define them. */
  method CalculateResults(resultArray: seq<array<real>>) returns (results: Results)
    requires SquareRows(resultArray) && WellFormed(Cells(resultArray))
    requires 3 <= |resultArray| <= |ConsistencyIndex|
    ensures var p := PrioritiesOf(Cells(resultArray));
      && results.resultColumn[..] == p.weights
      && results.eigen.eigenVector == p.eigenVector
      && results.eigen.avgEigenValue == p.avgEigenValue
      && results.eigen.maxEigenValue == p.maxEigenValue
      && results.consistencyRatio == p.consistencyRatio
    ensures Sum(results.resultColumn[..]) == 1.0
    ensures forall i :: 0 <= i < results.resultColumn.Length ==> results.resultColumn[i] > 0.0
  {
    ghost var m := Cells(resultArray);
    ColumnSumsAtLeastOne(m);
    WeightsAreDistribution(m);
    var sumRow := CalculateSumRow(resultArray);
    var normalizedResults := NormalizeResults(resultArray, sumRow);
    var resultColumn := CalculateResultAverages(normalizedResults);
    var cr, eigen := CalcConsistencyRatio(resultArray, resultColumn);
    results := Results(resultColumn, cr, eigen);
  }
}
