/** Sums of a weight over the rows of a table. */
module Sums {

  function SumOf<T>(rows: seq<T>, weight: T -> int): int {
    if rows == [] then 0 else SumOf(rows[..|rows| - 1], weight) + weight(rows[|rows| - 1])
  }

  lemma SumAppend<T>(rows: seq<T>, row: T, weight: T -> int)
    ensures SumOf(rows + [row], weight) == SumOf(rows, weight) + weight(row)
  {
    assert (rows + [row])[..|rows|] == rows;
  }

  /** Replacing a row changes the sum by the difference of the two weights. */
  lemma {:induction false} SumUpdate<T>(rows: seq<T>, i: nat, row: T, weight: T -> int)
    requires i < |rows|
    ensures SumOf(rows[i := row], weight) == SumOf(rows, weight) - weight(rows[i]) + weight(row)
  {
    var n := |rows| - 1;
    if i < n {
      SumUpdate(rows[..n], i, row, weight);
      assert rows[i := row][..n] == rows[..n][i := row];
    } else {
      assert rows[i := row][..n] == rows[..n];
    }
  }

  lemma {:induction false} SumZero<T>(rows: seq<T>, weight: T -> int)
    requires forall i :: 0 <= i < |rows| ==> weight(rows[i]) == 0
    ensures SumOf(rows, weight) == 0
  {
    if rows != [] {
      SumZero(rows[..|rows| - 1], weight);
    }
  }

  lemma {:induction false} SumNonNegative<T>(rows: seq<T>, weight: T -> int)
    requires forall i :: 0 <= i < |rows| ==> weight(rows[i]) >= 0
    ensures SumOf(rows, weight) >= 0
  {
    if rows != [] {
      SumNonNegative(rows[..|rows| - 1], weight);
    }
  }
}
