/**
 * The crate-root `Matrix` of the earlier layout: the same row-major storage
 * as the `matrix` module's, with construction from a literal, the flat-slice
 * view, Index/IndexMut, and an elementwise `+` / `+=` that has no vectorised
 * path. `empty`, `from_vec`, `-`, `*` and `transpose` do not exist here.
 */
module LegacyMatrix {
  import opened Errors
  import opened Arith
  import Storage
  import Addition
  import LegacyView

  datatype Matrix = Matrix(rows: nat, cols: nat, data: seq<int>)
  {
    predicate Valid()
    {
      |data| == rows * cols
    }
  }

  /** The matrix of the current layout holding the same fields. */
  function Modern(m: Matrix): (w: Storage.Matrix)
    ensures w.rows == m.rows && w.cols == m.cols && w.data == m.data
  {
    Storage.Matrix(m.rows, m.cols, m.data)
  }

  /** `Matrix::new`: rows = R, cols = C and the literal flattened row by row. */
  function New(cols: nat, literal: seq<seq<int>>): (m: Matrix)
    requires Storage.IsLiteral(literal, cols)
    ensures m.Valid() && m.rows == |literal| && m.cols == cols
    ensures forall r, c :: 0 <= r < |literal| && 0 <= c < cols ==>
      Offset(r, c, cols) < |m.data| && m.data[Offset(r, c, cols)] == literal[r][c]
    ensures Modern(m) == Storage.New(cols, literal)
  {
    Storage.FlattenIsRowMajor(literal, cols);
    Matrix(|literal|, cols, Storage.Flatten(literal, cols))
  }

  /**
   * `Matrix::view`: the slice from row_start * cols + col_start to
   * row_end * cols + col_end, with the range lengths as dimensions; a
   * reversed range underflows, a reversed or overlong slice panics.
   */
  function View(m: Matrix, rowStart: nat, rowEnd: nat, colStart: nat, colEnd: nat): (r: Result<LegacyView.MatrixView>)
    ensures r.Ok? <==>
      rowStart <= rowEnd && colStart <= colEnd && Offset(rowEnd, colEnd, m.cols) <= |m.data|
    ensures r.Ok? ==>
      && r.value.rows == rowEnd - rowStart
      && r.value.cols == colEnd - colStart
      && r.value.data == m.data[Offset(rowStart, colStart, m.cols)..Offset(rowEnd, colEnd, m.cols)]
  {
    OffsetOrdered(rowStart, colStart, rowEnd, colEnd, m.cols);
    var start := Offset(rowStart, colStart, m.cols);
    var end := Offset(rowEnd, colEnd, m.cols);
    if rowEnd < rowStart || colEnd < colStart then Err(RangeUnderflow)
    else if start > end then Err(SliceStartAfterEnd)
    else if end > |m.data| then Err(IndexOutOfRange)
    else Ok(LegacyView.New(rowEnd - rowStart, colEnd - colStart, m.data[start..end]))
  }

  /** Both layouts cut the same slice and fail on the same ranges, with the same panic. */
  lemma ViewAgreesWithModern(m: Matrix, rowStart: nat, rowEnd: nat, colStart: nat, colEnd: nat)
    ensures View(m, rowStart, rowEnd, colStart, colEnd).Ok? <==> Storage.View(Modern(m), rowStart, rowEnd, colStart, colEnd).Ok?
    ensures View(m, rowStart, rowEnd, colStart, colEnd).Err? ==>
      View(m, rowStart, rowEnd, colStart, colEnd).error == Storage.View(Modern(m), rowStart, rowEnd, colStart, colEnd).error
    ensures View(m, rowStart, rowEnd, colStart, colEnd).Ok? ==>
      LegacyView.Modern(View(m, rowStart, rowEnd, colStart, colEnd).value)
        == Storage.View(Modern(m), rowStart, rowEnd, colStart, colEnd).value
  {
  }

  /** `get`: the cell at offset row * cols + col; an offset past the buffer panics. */
  function Get(m: Matrix, row: nat, col: nat): (r: Result<int>)
    ensures r.Ok? <==> Offset(row, col, m.cols) < |m.data|
    ensures r.Ok? ==> r.value == m.data[Offset(row, col, m.cols)]
    ensures r.Err? ==> r.error == IndexOutOfRange
  {
    if row * m.cols + col < |m.data| then Ok(m.data[row * m.cols + col]) else Err(IndexOutOfRange)
  }

  /** `Index<(usize, usize)>`: delegates to `get`. */
  function Index(m: Matrix, row: nat, col: nat): (r: Result<int>)
    ensures r == Get(m, row, col)
  {
    Get(m, row, col)
  }

  /** Both layouts read every cell alike. */
  lemma GetAgreesWithModern(m: Matrix, row: nat, col: nat)
    ensures Get(m, row, col) == Storage.Get(Modern(m), row, col)
  {
  }

  /**
   * `Add::add`: a panic when the row counts differ, then when the column
   * counts differ, else the pairwise sum of the two buffers.
   */
  function Add(m1: Matrix, m2: Matrix): (r: Result<Matrix>)
    requires m1.Valid() && m2.Valid()
    ensures r.Ok? <==> m1.rows == m2.rows && m1.cols == m2.cols
    ensures m1.rows != m2.rows ==> r == Err(RowsMismatch)
    ensures m1.rows == m2.rows && m1.cols != m2.cols ==> r == Err(ColsMismatch)
    ensures r.Ok? ==> r.value.Valid() && r.value.rows == m1.rows && r.value.cols == m1.cols
    ensures r.Ok? ==> forall i :: 0 <= i < |r.value.data| ==> r.value.data[i] == m1.data[i] + m2.data[i]
  {
    if m1.rows != m2.rows then Err(RowsMismatch)
    else if m1.cols != m2.cols then Err(ColsMismatch)
    else Ok(Matrix(m1.rows, m1.cols, seq(|m1.data|, i requires 0 <= i < |m1.data| => m1.data[i] + m2.data[i])))
  }

  /** The earlier `+` is the current one, panics included. */
  lemma AddAgreesWithModern(m1: Matrix, m2: Matrix)
    requires m1.Valid() && m2.Valid()
    ensures Add(m1, m2).Ok? <==> Addition.Sum(Modern(m1), Modern(m2)).Ok?
    ensures Add(m1, m2).Err? ==> Add(m1, m2).error == Addition.Sum(Modern(m1), Modern(m2)).error
    ensures Add(m1, m2).Ok? ==> Modern(Add(m1, m2).value) == Addition.Sum(Modern(m1), Modern(m2)).value
  {
    if Add(m1, m2).Ok? {
      assert Modern(Add(m1, m2).value).data == Addition.Sum(Modern(m1), Modern(m2)).value.data;
    }
  }

  /** A mutable binding of the earlier matrix, for IndexMut and `+=`. */
  class MutMatrix {
    var rows: nat
    var cols: nat
    var data: seq<int>

    function Value(): Matrix
      reads this
    {
      Matrix(rows, cols, data)
    }

    constructor (m: Matrix)
      ensures Value() == m
    {
      rows, cols, data := m.rows, m.cols, m.data;
    }

    /** `m[(row, col)] = x` through `IndexMut` / `get_mut`: one cell changes, or the access panics. */
    method IndexMut(row: nat, col: nat, x: int) returns (r: Result<()>)
      modifies this
      ensures r.Ok? <==> Offset(row, col, old(cols)) < |old(data)|
      ensures r.Ok? ==> rows == old(rows) && cols == old(cols) && data == old(data)[Offset(row, col, old(cols)) := x]
      ensures r.Err? ==> r.error == IndexOutOfRange && Value() == old(Value())
    {
      var at := row * cols + col;
      if at < |data| {
        data := data[at := x];
        r := Ok(());
      } else {
        r := Err(IndexOutOfRange);
      }
    }

    /**
     * `AddAssign::add_assign`: the two dimension checks, then each cell of
     * this buffer increased in place by the matching cell of `other`.
     * On success the binding holds exactly what `+` returns.
     */
    method AddAssign(other: Matrix) returns (r: Result<()>)
      requires Value().Valid() && other.Valid()
      modifies this
      ensures r.Ok? <==> Add(old(Value()), other).Ok?
      ensures r.Ok? ==> Value() == Add(old(Value()), other).value
      ensures r.Err? ==> r.error == Add(old(Value()), other).error && Value() == old(Value())
    {
      if rows != other.rows {
        return Err(RowsMismatch);
      }
      if cols != other.cols {
        return Err(ColsMismatch);
      }
      var n := Min(|data|, |other.data|);
      for i := 0 to n
        invariant rows == old(rows) && cols == old(cols)
        invariant |data| == |old(data)|
        invariant forall j :: 0 <= j < |data| ==>
          data[j] == if j < i then old(data[j]) + other.data[j] else old(data[j])
      {
        data := data[i := data[i] + other.data[i]];
      }
      assert data == Add(old(Value()), other).value.data;
      r := Ok(());
    }
  }

  /** The source's tests of construction, indexing, writing, viewing and `+`. */
  lemma LegacyExamples()
    ensures New(3, [[1, 2, 3], [4, 5, 6], [7, 8, 9]]).rows == 3
    ensures New(3, [[1, 2, 3], [4, 5, 6], [7, 8, 9]]).cols == 3
    ensures Index(New(3, [[1, 2, 3], [4, 5, 6], [7, 8, 9]]), 0, 0) == Ok(1)
    ensures var v := View(New(3, [[1, 2, 3], [4, 5, 6], [7, 8, 9]]), 0, 2, 0, 2);
      v.Ok? && v.value.rows == 2 && v.value.cols == 2 && LegacyView.Index(v.value, 0, 0) == Ok(1)
    ensures var s := Add(New(3, [[1, 2, 3], [4, 5, 6], [7, 8, 9]]), New(3, [[1, 0, 0], [0, 1, 0], [0, 0, 1]]));
      && s.Ok? && s.value.rows == 3 && s.value.cols == 3
      && Index(s.value, 0, 0) == Ok(2) && Index(s.value, 1, 1) == Ok(6) && Index(s.value, 2, 2) == Ok(10)
  {
    var a := New(3, [[1, 2, 3], [4, 5, 6], [7, 8, 9]]);
    var i := New(3, [[1, 0, 0], [0, 1, 0], [0, 0, 1]]);
    assert a.data[Offset(0, 0, 3)] == 1 && a.data[Offset(1, 1, 3)] == 5 && a.data[Offset(2, 2, 3)] == 9;
    assert i.data[Offset(0, 0, 3)] == 1 && i.data[Offset(1, 1, 3)] == 1 && i.data[Offset(2, 2, 3)] == 1;
  }

  /** The source's tests of `m[(0, 0)] = 10` and of `+=`. */
  method LegacyMutationExample() returns (written: Matrix, summed: Matrix)
    ensures Index(written, 0, 0) == Ok(10)
    ensures summed.rows == 3 && summed.cols == 3
    ensures Index(summed, 0, 0) == Ok(2) && Index(summed, 1, 1) == Ok(6) && Index(summed, 2, 2) == Ok(10)
  {
    var m := new MutMatrix(New(3, [[1, 2, 3], [4, 5, 6], [7, 8, 9]]));
    var w := m.IndexMut(0, 0, 10);
    assert w.Ok?;
    written := m.Value();
    var a := new MutMatrix(New(3, [[1, 2, 3], [4, 5, 6], [7, 8, 9]]));
    var r := a.AddAssign(New(3, [[1, 0, 0], [0, 1, 0], [0, 0, 1]]));
    LegacyExamples();
    assert r.Ok? && a.rows == 3 && a.cols == 3;
    summed := a.Value();
  }
}
