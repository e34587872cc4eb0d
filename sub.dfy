/**
 * Elementwise subtraction: `m1 - m2` (owned or by reference) and `m1 -= m2`,
 * which subtracts in place. Subtraction has no vectorised path.
 */
module Subtraction {
  import opened Errors
  import opened Arith
  import opened Storage
  import Addition

  /**
   * `sub_matrix_impl`: a panic when the row counts differ, then when the
   * column counts differ, else the pairwise difference wrapped by `from_vec`.
   */
  function SubMatrixImpl(m1: Matrix, m2: Matrix): (r: Result<Matrix>)
    requires m1.Valid() && m2.Valid()
    ensures r.Ok? <==> m1.rows == m2.rows && m1.cols == m2.cols
    ensures m1.rows != m2.rows ==> r == Err(RowsMismatch)
    ensures m1.rows == m2.rows && m1.cols != m2.cols ==> r == Err(ColsMismatch)
    ensures r.Ok? ==> r.value.Valid() && r.value.rows == m1.rows && r.value.cols == m1.cols
    ensures r.Ok? ==> forall i :: 0 <= i < |r.value.data| ==> r.value.data[i] == m1.data[i] - m2.data[i]
  {
    if m1.rows != m2.rows then Err(RowsMismatch)
    else if m1.cols != m2.cols then Err(ColsMismatch)
    else
      var data := seq(|m1.data|, i requires 0 <= i < |m1.data| => m1.data[i] - m2.data[i]);
      Ok(FromVec(m1.rows, m1.cols, data).value)
  }

  /**
   * `SubAssign::sub_assign` (`m1 -= m2`): the dimension checks, then each
   * cell of m1's buffer decreased in place by the matching cell of m2.
   * On success m1 holds exactly what `m1 - m2` returns.
   */
  method SubAssign(m1: MutMatrix, other: Matrix) returns (r: Result<()>)
    requires m1.Value().Valid() && other.Valid()
    modifies m1
    ensures r.Ok? <==> SubMatrixImpl(old(m1.Value()), other).Ok?
    ensures r.Ok? ==> m1.Value() == SubMatrixImpl(old(m1.Value()), other).value
    ensures r.Err? ==> r.error == SubMatrixImpl(old(m1.Value()), other).error && m1.Value() == old(m1.Value())
  {
    if m1.rows != other.rows {
      return Err(RowsMismatch);
    }
    if m1.cols != other.cols {
      return Err(ColsMismatch);
    }
    var n := Min(|m1.data|, |other.data|);
    for i := 0 to n
      invariant m1.rows == old(m1.rows) && m1.cols == old(m1.cols)
      invariant |m1.data| == |old(m1.data)|
      invariant forall j :: 0 <= j < |m1.data| ==>
        m1.data[j] == if j < i then old(m1.data[j]) - other.data[j] else old(m1.data[j])
    {
      m1.data := m1.data[i := m1.data[i] - other.data[i]];
    }
    assert m1.data == SubMatrixImpl(old(m1.Value()), other).value.data;
    r := Ok(());
  }

  /** (A + B) - B == A. */
  lemma SubUndoesSum(a: Matrix, b: Matrix)
    requires a.Valid() && b.Valid() && a.rows == b.rows && a.cols == b.cols
    ensures SubMatrixImpl(Addition.Sum(a, b).value, b) == Ok(a)
  {
    assert SubMatrixImpl(Addition.Sum(a, b).value, b).value.data == a.data;
  }

  /** (A - B) + B == A. */
  lemma SumUndoesSub(a: Matrix, b: Matrix)
    requires a.Valid() && b.Valid() && a.rows == b.rows && a.cols == b.cols
    ensures Addition.Sum(SubMatrixImpl(a, b).value, b) == Ok(a)
  {
    assert Addition.Sum(SubMatrixImpl(a, b).value, b).value.data == a.data;
  }

  /** A matrix minus itself is the default-filled matrix. */
  lemma SubSelfIsEmpty(a: Matrix)
    requires a.Valid()
    ensures SubMatrixImpl(a, a) == Ok(Empty(a.rows, a.cols))
  {
    assert SubMatrixImpl(a, a).value.data == Empty(a.rows, a.cols).data;
  }

  /** The source's test: A - I has 0, 4, 8 on its diagonal. */
  lemma SubExample()
    ensures var d := SubMatrixImpl(New(3, [[1, 2, 3], [4, 5, 6], [7, 8, 9]]), New(3, [[1, 0, 0], [0, 1, 0], [0, 0, 1]]));
      && d.Ok? && d.value.rows == 3 && d.value.cols == 3
      && Index(d.value, 0, 0) == Ok(0) && Index(d.value, 1, 1) == Ok(4) && Index(d.value, 2, 2) == Ok(8)
  {
    var a := New(3, [[1, 2, 3], [4, 5, 6], [7, 8, 9]]);
    var i := New(3, [[1, 0, 0], [0, 1, 0], [0, 0, 1]]);
    assert a.data[Offset(0, 0, 3)] == 1 && a.data[Offset(1, 1, 3)] == 5 && a.data[Offset(2, 2, 3)] == 9;
    assert i.data[Offset(0, 0, 3)] == 1 && i.data[Offset(1, 1, 3)] == 1 && i.data[Offset(2, 2, 3)] == 1;
  }

  /** The storage module's tests of `-` and `-=`: B - I has 2, 4, 6 on its diagonal. */
  lemma SubExampleReversedRows()
    ensures var d := SubMatrixImpl(New(3, [[3, 2, 1], [6, 5, 4], [9, 8, 7]]), New(3, [[1, 0, 0], [0, 1, 0], [0, 0, 1]]));
      && d.Ok? && d.value.rows == 3 && d.value.cols == 3
      && Index(d.value, 0, 0) == Ok(2) && Index(d.value, 1, 1) == Ok(4) && Index(d.value, 2, 2) == Ok(6)
  {
    var a := New(3, [[3, 2, 1], [6, 5, 4], [9, 8, 7]]);
    var i := New(3, [[1, 0, 0], [0, 1, 0], [0, 0, 1]]);
    assert a.data[Offset(0, 0, 3)] == 3 && a.data[Offset(1, 1, 3)] == 5 && a.data[Offset(2, 2, 3)] == 7;
    assert i.data[Offset(0, 0, 3)] == 1 && i.data[Offset(1, 1, 3)] == 1 && i.data[Offset(2, 2, 3)] == 1;
  }

  /** The source's test of `-=`: A -= I leaves 0, 4, 8 on the diagonal. */
  method SubAssignExample() returns (m1: Matrix, m2: Matrix)
    ensures m1.rows == 3 && m1.cols == 3
    ensures Index(m1, 0, 0) == Ok(0) && Index(m1, 1, 1) == Ok(4) && Index(m1, 2, 2) == Ok(8)
    ensures m2.rows == 3 && m2.cols == 3
    ensures Index(m2, 0, 0) == Ok(2) && Index(m2, 1, 1) == Ok(4) && Index(m2, 2, 2) == Ok(6)
  {
    var a := new MutMatrix(New(3, [[1, 2, 3], [4, 5, 6], [7, 8, 9]]));
    var r := SubAssign(a, New(3, [[1, 0, 0], [0, 1, 0], [0, 0, 1]]));
    SubExample();
    assert r.Ok? && a.rows == 3 && a.cols == 3;
    m1 := a.Value();
    var b := new MutMatrix(New(3, [[3, 2, 1], [6, 5, 4], [9, 8, 7]]));
    var r2 := SubAssign(b, New(3, [[1, 0, 0], [0, 1, 0], [0, 0, 1]]));
    SubExampleReversedRows();
    assert r2.Ok? && b.rows == 3 && b.cols == 3;
    m2 := b.Value();
  }
}
