/** The square-array helper: builds the pairwise matrix the poll starts from.
    A matrix is held as the source holds it, a list of rows that is built once
    and never re-shaped, each row an array whose cells are written in place. */
module ArrayHelper {
  import opened Sums

  /** The value currently held in the rows. */
  ghost function Cells(rows: seq<array<real>>): (m: Matrix)
    reads rows
    ensures |m| == |rows|
    ensures forall i :: 0 <= i < |rows| ==> m[i] == rows[i][..]
  {
    seq(|rows|, i reads rows requires 0 <= i < |rows| => rows[i][..])
  }

  /** Every row has exactly as many cells as there are rows. */
  ghost predicate SquareRows(rows: seq<array<real>>)
    reads rows
  {
    forall i :: 0 <= i < |rows| ==> rows[i].Length == |rows|
  }

  /** No two rows are the same array, so a write to one cell changes one row. */
  ghost predicate DistinctRows(rows: seq<array<real>>) {
    forall i, j :: 0 <= i < j < |rows| ==> rows[i] != rows[j]
  }

  /** The matrix of a poll nobody has answered yet: 1 on the diagonal, the
      "unanswered" sentinel 0 everywhere else. */
  function Identity(n: nat): (m: Matrix)
    ensures |m| == n && Square(m)
  {
    seq(n, i requires 0 <= i < n => seq(n, j requires 0 <= j < n => if i == j then 1.0 else 0.0))
  }

  /** A fresh row of `size` zeros. */
  method GetInitializedArray(size: nat) returns (row: array<real>)
    ensures fresh(row)
    ensures row.Length == size && forall k :: 0 <= k < size ==> row[k] == 0.0
  {
    row := new real[size](_ => 0.0);
  }

  /** A `size` by `size` matrix of fresh, distinct rows: 1 on the diagonal,
      0 elsewhere. The rows are set up first, the diagonal written second. */
  method SetUpSquareArray(size: nat) returns (result: seq<array<real>>)
    ensures |result| == size && SquareRows(result) && DistinctRows(result)
    ensures forall i :: 0 <= i < size ==> fresh(result[i])
    ensures forall i, j :: 0 <= i < size && 0 <= j < size ==>
              result[i][j] == if i == j then 1.0 else 0.0
    ensures Cells(result) == Identity(size)
  {
    result := [];
    // set up the rows
    var i := 0;
    while i < size
      invariant 0 <= i <= size && |result| == i
      invariant forall k :: 0 <= k < i ==> fresh(result[k]) && result[k].Length == size
      invariant DistinctRows(result)
      invariant forall k, l :: 0 <= k < i && 0 <= l < size ==> result[k][l] == 0.0
    {
      var row := GetInitializedArray(size);
      result := result + [row];
      i := i + 1;
    }
    // set the diagonal to 1
    i := 0;
    while i < size
      invariant 0 <= i <= size
      invariant forall k :: 0 <= k < size ==> fresh(result[k]) && result[k].Length == size
      invariant forall k, l :: 0 <= k < size && 0 <= l < size ==>
                  result[k][l] == if k == l && k < i then 1.0 else 0.0
    {
      result[i][i] := 1.0;
      i := i + 1;
    }
    assert Cells(result) == Identity(size) by {
      forall k | 0 <= k < size
        ensures Cells(result)[k] == Identity(size)[k]
      {
        assert result[k][..] == Identity(size)[k];
      }
    }
  }
}
