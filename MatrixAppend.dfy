/**
 * The `append` functor: meant to put `value` at the end of every row of a matrix. The matrix
 * is taken by value (a seq here), and the loop variable is a copy of each row.
 */
module MatrixAppend {

  /** std::vector::push_back(value). */
  function PushBack<T>(row: seq<T>, value: T): (r: seq<T>)
    ensures |r| == |row| + 1 && r[|row|] == value
    ensures r[..|row|] == row
  {
    row + [value]
  }

  /**
   * Append::operator(): every iteration pushes onto `row`, a copy of source[i], and the copy
   * is dropped at the end of the iteration, so the returned matrix is `source`.
   */
  method Append<T>(source: seq<seq<T>>, value: T) returns (r: seq<seq<T>>)
    ensures r == source
  {
    for i := 0 to |source| {
      var row := source[i];
      row := PushBack(row, value);
    }
    r := source;
  }

  /** The matrix the functor is meant to return: `value` appended to each row. */
  function AppendedRows<T>(source: seq<seq<T>>, value: T): (r: seq<seq<T>>)
    ensures |r| == |source|
  {
    seq(|source|, i requires 0 <= i < |source| => PushBack(source[i], value))
  }

  /**
   * The functor as intended (`for (auto &row : source)`): each row of the by-value copy is
   * updated in place, and the copy is returned.
   */
  method AppendByReference<T>(source: seq<seq<T>>, value: T) returns (r: seq<seq<T>>)
    ensures r == AppendedRows(source, value)
    ensures forall i :: 0 <= i < |r| ==> |r[i]| == |source[i]| + 1 && r[i][|source[i]|] == value
    ensures forall i :: 0 <= i < |r| ==> r[i][..|source[i]|] == source[i]
  {
    r := source;
    for i := 0 to |r|
      invariant |r| == |source|
      invariant forall j :: 0 <= j < i ==> r[j] == PushBack(source[j], value)
      invariant forall j :: i <= j < |r| ==> r[j] == source[j]
    {
      r := r[i := PushBack(r[i], value)];
    }
  }

  /** The intended result differs from what Append returns whenever there is a row. */
  lemma AppendedRowsDiffer<T>(source: seq<seq<T>>, value: T)
    requires |source| > 0
    ensures AppendedRows(source, value) != source
  {
    assert |AppendedRows(source, value)[0]| == |source[0]| + 1;
  }
}
