/** Finite sums over sequences of reals and over the rows and columns of a
    matrix held as a sequence of rows. These are the specification functions
    the accumulating loops of the priority engine are proved against. */
module Sums {

  /** A matrix value: a sequence of rows. */
  type Matrix = seq<seq<real>>

  /** Every row of `m` has exactly `|m|` entries. */
  predicate Square(m: Matrix) {
    forall i :: 0 <= i < |m| ==> |m[i]| == |m|
  }

  /** Sum of the entries, added left to right as the source's `+=` loops do. */
  function Sum(s: seq<real>): real {
    if s == [] then 0.0 else Sum(s[..|s| - 1]) + s[|s| - 1]
  }

  /** Column `j` of `m`, top to bottom. */
  function Column(m: Matrix, j: nat): (c: seq<real>)
    requires forall i :: 0 <= i < |m| ==> j < |m[i]|
    ensures |c| == |m| && forall i :: 0 <= i < |m| ==> c[i] == m[i][j]
  {
    seq(|m|, i requires 0 <= i < |m| => m[i][j])
  }

  /** The sum of every row of `m`. */
  function RowSums(m: Matrix): (r: seq<real>)
    ensures |r| == |m| && forall i :: 0 <= i < |m| ==> r[i] == Sum(m[i])
  {
    seq(|m|, i requires 0 <= i < |m| => Sum(m[i]))
  }

  /** The sum of each of the first `w` columns of `m`. */
  function ColumnSums(m: Matrix, w: nat): (r: seq<real>)
    requires forall i :: 0 <= i < |m| ==> w <= |m[i]|
    ensures |r| == w && forall j :: 0 <= j < w ==> r[j] == Sum(Column(m, j))
  {
    seq(w, j requires 0 <= j < w => Sum(Column(m, j)))
  }

  /** Extending a prefix by one element adds that element: the step of every
      accumulating loop. */
  lemma SumPrefix(s: seq<real>, k: nat)
    requires k < |s|
    ensures Sum(s[..k + 1]) == Sum(s[..k]) + s[k]
  {
    assert s[..k + 1][..k] == s[..k];
  }

  /** Appending the next entry to a prefix gives the next prefix. */
  lemma PrefixAppend(s: seq<real>, k: nat)
    requires k < |s|
    ensures s[..k] + [s[k]] == s[..k + 1]
  {
  }

  lemma {:induction false} SumNonNegative(s: seq<real>)
    requires forall i :: 0 <= i < |s| ==> s[i] >= 0.0
    ensures Sum(s) >= 0.0
  {
    if s != [] {
      SumNonNegative(s[..|s| - 1]);
    }
  }

  /** With no negative entry, the sum is at least any single entry. */
  lemma {:induction false} SumAtLeastEntry(s: seq<real>, k: nat)
    requires forall i :: 0 <= i < |s| ==> s[i] >= 0.0
    requires k < |s|
    ensures Sum(s) >= s[k]
  {
    var last := |s| - 1;
    if k == last {
      SumNonNegative(s[..last]);
    } else {
      SumAtLeastEntry(s[..last], k);
    }
  }

  /** A sequence of `|s|` copies of `c` sums to `|s| * c`. */
  lemma {:induction false} SumConstant(s: seq<real>, c: real)
    requires forall i :: 0 <= i < |s| ==> s[i] == c
    ensures Sum(s) == |s| as real * c
  {
    if s != [] {
      SumConstant(s[..|s| - 1], c);
    }
  }

  /** With every entry at least `c`, the sum is at least `|s| * c`. */
  lemma {:induction false} SumAtLeast(s: seq<real>, c: real)
    requires forall i :: 0 <= i < |s| ==> s[i] >= c
    ensures Sum(s) >= |s| as real * c
  {
    if s != [] {
      SumAtLeast(s[..|s| - 1], c);
    }
  }

  /** Half of `m * 2k` is `k * k` when `m` is `k`. */
  lemma HalfOfDouble(m: real, k: real)
    requires m == k
    ensures m * (2.0 * k) / 2.0 == k * k
  {
  }

  /** The pointwise sum of two lists of equal length. */
  function Paired(u: seq<real>, v: seq<real>): (w: seq<real>)
    requires |u| == |v|
    ensures |w| == |u| && forall i :: 0 <= i < |w| ==> w[i] == u[i] + v[i]
  {
    seq(|u|, i requires 0 <= i < |u| => u[i] + v[i])
  }

  /** Entry by entry, `u` and `v` add up to at least `c`. */
  predicate PairedAtLeast(u: seq<real>, v: seq<real>, c: real) {
    |u| == |v| && forall i :: 0 <= i < |u| ==> u[i] + v[i] >= c
  }

  /** Two lists of `n` entries with the same total, whose entries pairwise add
      up to at least `2n`, each total at least `n * n`. */
  lemma PairedTotals(u: seq<real>, v: seq<real>, n: nat)
    requires |u| == n && Sum(u) == Sum(v) && PairedAtLeast(u, v, 2.0 * n as real)
    ensures Sum(u) >= n as real * n as real
  {
    var w := Paired(u, v);
    var k := n as real;
    SumPointwise(u, v, w);
    SumAtLeast(w, 2.0 * k);
    HalfOfDouble(|w| as real, k);
  }

  /** Summing a pointwise sum is summing each part. */
  lemma {:induction false} SumPointwise(u: seq<real>, v: seq<real>, w: seq<real>)
    requires |u| == |v| == |w|
    requires forall i :: 0 <= i < |w| ==> w[i] == u[i] + v[i]
    ensures Sum(w) == Sum(u) + Sum(v)
  {
    if w != [] {
      var k := |w| - 1;
      SumPointwise(u[..k], v[..k], w[..k]);
    }
  }

  /** Dividing every entry by `c` divides the sum by `c`. */
  lemma {:induction false} SumDivided(s: seq<real>, t: seq<real>, c: real)
    requires c != 0.0
    requires |s| == |t|
    requires forall i :: 0 <= i < |t| ==> t[i] == s[i] / c
    ensures Sum(t) == Sum(s) / c
  {
    if t != [] {
      var k := |t| - 1;
      SumDivided(s[..k], t[..k], c);
      calc {
        Sum(t);
        Sum(s[..k]) / c + s[k] / c;
        (Sum(s[..k]) + s[k]) / c;
      }
    }
  }

  /** Splitting off the last row splits off its sum from the row total. */
  lemma RowTotalLastRow(m: Matrix)
    requires |m| > 0
    ensures Sum(RowSums(m)) == Sum(RowSums(m[..|m| - 1])) + Sum(m[|m| - 1])
  {
    var k := |m| - 1;
    assert RowSums(m)[..k] == RowSums(m[..k]);
  }

  /** Splitting off the last row splits off its entries from the column sums. */
  lemma ColumnSumsLastRow(m: Matrix, w: nat)
    requires |m| > 0 && forall i :: 0 <= i < |m| ==> |m[i]| == w
    ensures forall j :: 0 <= j < w ==>
      ColumnSums(m, w)[j] == ColumnSums(m[..|m| - 1], w)[j] + m[|m| - 1][j]
  {
    var k := |m| - 1;
    forall j | 0 <= j < w
      ensures ColumnSums(m, w)[j] == ColumnSums(m[..k], w)[j] + m[k][j]
    {
      assert Column(m, j)[..k] == Column(m[..k], j);
    }
  }

  /** Adding up a matrix row by row gives the same total as adding it up
      column by column. */
  lemma {:induction false} RowTotalIsColumnTotal(m: Matrix, w: nat)
    requires forall i :: 0 <= i < |m| ==> |m[i]| == w
    ensures Sum(RowSums(m)) == Sum(ColumnSums(m, w))
  {
    if m == [] {
      SumConstant(ColumnSums(m, w), 0.0);
    } else {
      var k := |m| - 1;
      RowTotalIsColumnTotal(m[..k], w);
      RowTotalLastRow(m);
      ColumnSumsLastRow(m, w);
      SumPointwise(ColumnSums(m[..k], w), m[k], ColumnSums(m, w));
    }
  }
}
