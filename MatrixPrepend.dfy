/**
 * The `prepend` functor: meant to put `value` in front of every row of a matrix. The matrix
 * is taken by value (a seq here), and the loop variable is a copy of each row.
 */
module MatrixPrepend {

  /** std::vector::insert(pos, value) for an index position. */
  function Insert<T>(row: seq<T>, pos: nat, value: T): (r: seq<T>)
    requires pos <= |row|
    ensures |r| == |row| + 1 && r[pos] == value
    ensures forall k :: 0 <= k < pos ==> r[k] == row[k]
    ensures forall k :: pos <= k < |row| ==> r[k + 1] == row[k]
  {
    row[..pos] + [value] + row[pos..]
  }

  /**
   * Prepend::operator(): every iteration inserts into `row`, a copy of source[i], and the
   * copy is dropped at the end of the iteration, so the returned matrix is `source`.
   */
  method Prepend<T>(source: seq<seq<T>>, value: T) returns (r: seq<seq<T>>)
    ensures r == source
  {
    for i := 0 to |source| {
      var row := source[i];
      row := Insert(row, 0, value);
    }
    r := source;
  }

  /** The matrix the functor is meant to return: `value` inserted at the front of each row. */
  function PrependedRows<T>(source: seq<seq<T>>, value: T): (r: seq<seq<T>>)
    ensures |r| == |source|
  {
    seq(|source|, i requires 0 <= i < |source| => Insert(source[i], 0, value))
  }

  /**
   * The functor as intended (`for (auto &row : source)`): each row of the by-value copy is
   * updated in place, and the copy is returned.
   */
  method PrependByReference<T>(source: seq<seq<T>>, value: T) returns (r: seq<seq<T>>)
    ensures r == PrependedRows(source, value)
    ensures forall i :: 0 <= i < |r| ==> |r[i]| == |source[i]| + 1 && r[i][0] == value
    ensures forall i, k :: 0 <= i < |r| && 0 <= k < |source[i]| ==> r[i][k + 1] == source[i][k]
  {
    r := source;
    for i := 0 to |r|
      invariant |r| == |source|
      invariant forall j :: 0 <= j < i ==> r[j] == Insert(source[j], 0, value)
      invariant forall j :: i <= j < |r| ==> r[j] == source[j]
    {
      r := r[i := Insert(r[i], 0, value)];
    }
  }

  /** The intended result is exactly PrependedRows, and differs from what Prepend returns
      whenever there is a row. */
  lemma PrependedRowsDiffer<T>(source: seq<seq<T>>, value: T)
    requires |source| > 0
    ensures PrependedRows(source, value) != source
  {
    assert |PrependedRows(source, value)[0]| == |source[0]| + 1;
  }
}
