/**
 * The storage core: a dense matrix kept in one flat row-major buffer, where
 * cell (row, col) lives at offset `row * cols + col`.
 *
 * `Matrix` is the value (Rust's `Matrix<T>` has value semantics: clone is a
 * deep copy, equality is structural). `MutMatrix` is a mutable binding of
 * such a value, through which `IndexMut` and the compound operators update
 * the buffer in place.
 */
module Storage {
  import opened Errors
  import opened Arith
  import Views

  datatype Matrix = Matrix(rows: nat, cols: nat, data: seq<int>)
  {
    /** The invariant every constructor keeps: the buffer holds rows * cols cells. */
    predicate Valid()
    {
      |data| == rows * cols
    }
  }

  /** A literal `[[T; C]; R]` has R rows of exactly C elements each. */
  predicate IsLiteral(literal: seq<seq<int>>, cols: nat)
  {
    forall r :: 0 <= r < |literal| ==> |literal[r]| == cols
  }

  /** Row-major flattening of a literal: row 0, then row 1, and so on. */
  function Flatten(literal: seq<seq<int>>, cols: nat): (data: seq<int>)
    requires IsLiteral(literal, cols)
    ensures |data| == |literal| * cols
    decreases |literal|
  {
    if literal == [] then [] else literal[0] + Flatten(literal[1..], cols)
  }

  /** Cell (r, c) of the literal lands at offset r * cols + c of the flattened buffer. */
  lemma {:induction false} FlattenAt(literal: seq<seq<int>>, cols: nat, r: nat, c: nat)
    requires IsLiteral(literal, cols)
    requires r < |literal| && c < cols
    ensures Offset(r, c, cols) < |Flatten(literal, cols)|
    ensures Flatten(literal, cols)[Offset(r, c, cols)] == literal[r][c]
    decreases r
  {
    if r > 0 {
      FlattenAt(literal[1..], cols, r - 1, c);
      assert Offset(r, c, cols) == cols + Offset(r - 1, c, cols);
    }
  }

  lemma FlattenIsRowMajor(literal: seq<seq<int>>, cols: nat)
    requires IsLiteral(literal, cols)
    ensures forall r, c :: 0 <= r < |literal| && 0 <= c < cols ==>
      Offset(r, c, cols) < |Flatten(literal, cols)| && Flatten(literal, cols)[Offset(r, c, cols)] == literal[r][c]
  {
    var data := Flatten(literal, cols);
    forall r, c | 0 <= r < |literal| && 0 <= c < cols
      ensures Offset(r, c, cols) < |data| && data[Offset(r, c, cols)] == literal[r][c]
    {
      FlattenAt(literal, cols, r, c);
    }
  }

  /** `Matrix::new`: rows = R, cols = C and the literal flattened row by row. */
  function New(cols: nat, literal: seq<seq<int>>): (m: Matrix)
    requires IsLiteral(literal, cols)
    ensures m.Valid() && m.rows == |literal| && m.cols == cols
    ensures forall r, c :: 0 <= r < |literal| && 0 <= c < cols ==>
      Offset(r, c, cols) < |m.data| && m.data[Offset(r, c, cols)] == literal[r][c]
  {
    FlattenIsRowMajor(literal, cols);
    Matrix(|literal|, cols, Flatten(literal, cols))
  }

  /** `Matrix::empty`: rows * cols copies of the default element, 0. */
  function Empty(rows: nat, cols: nat): (m: Matrix)
    ensures m.Valid() && m.rows == rows && m.cols == cols
    ensures forall i :: 0 <= i < |m.data| ==> m.data[i] == 0
  {
    Matrix(rows, cols, seq(rows * cols, _ => 0))
  }

  /** `Matrix::from_vec`: wraps the buffer, failing unless it holds rows * cols elements. */
  function FromVec(rows: nat, cols: nat, data: seq<int>): (r: Result<Matrix>)
    ensures r.Ok? <==> |data| == rows * cols
    ensures r.Ok? ==> r.value == Matrix(rows, cols, data) && r.value.Valid()
    ensures r.Err? ==> r.error == DataLengthMismatch
  {
    if rows * cols == |data| then Ok(Matrix(rows, cols, data)) else Err(DataLengthMismatch)
  }

  /** `get`: the cell at offset row * cols + col; an offset past the buffer panics. */
  function Get(m: Matrix, row: nat, col: nat): (r: Result<int>)
    ensures r.Ok? <==> Offset(row, col, m.cols) < |m.data|
    ensures r.Ok? ==> r.value == m.data[Offset(row, col, m.cols)]
    ensures r.Err? ==> r.error == IndexOutOfRange
  {
    var at := Offset(row, col, m.cols);
    if at < |m.data| then Ok(m.data[at]) else Err(IndexOutOfRange)
  }

  /**
   * `get` checks only the flat offset, never `col < cols`: a column index one
   * row-length too far reads the cell at the same column of the next row.
   */
  lemma GetWrapsToNextRow(m: Matrix, row: nat, col: nat)
    ensures Get(m, row, col + m.cols) == Get(m, row + 1, col)
  {
    assert Offset(row, col + m.cols, m.cols) == Offset(row + 1, col, m.cols);
  }

  /** On the 3 x 3 test matrix, column 3 of row 0 silently reads cell (1, 0). */
  lemma GetWrapExample()
    ensures Get(New(3, [[1, 2, 3], [4, 5, 6], [7, 8, 9]]), 0, 3) == Ok(4)
  {
    var m := New(3, [[1, 2, 3], [4, 5, 6], [7, 8, 9]]);
    assert m.data[Offset(1, 0, 3)] == 4;
    GetWrapsToNextRow(m, 0, 0);
  }

  /** `Index<(usize, usize)>`: the same offset arithmetic as `get`. */
  function Index(m: Matrix, row: nat, col: nat): (r: Result<int>)
    ensures r == Get(m, row, col)
  {
    if row * m.cols + col < |m.data| then Ok(m.data[row * m.cols + col]) else Err(IndexOutOfRange)
  }

  /** The matrix after `*m.get_mut(row, col) = x` (equivalently `m[(row, col)] = x`). */
  function Write(m: Matrix, row: nat, col: nat, x: int): (r: Result<Matrix>)
    ensures r.Ok? <==> Offset(row, col, m.cols) < |m.data|
    ensures r.Ok? ==> r.value.rows == m.rows && r.value.cols == m.cols
    ensures r.Ok? ==> r.value.data == m.data[Offset(row, col, m.cols) := x]
    ensures r.Err? ==> r.error == IndexOutOfRange
  {
    var at := Offset(row, col, m.cols);
    if at < |m.data| then Ok(Matrix(m.rows, m.cols, m.data[at := x])) else Err(IndexOutOfRange)
  }

  /**
   * A write changes exactly one cell: reading it back gives the written value,
   * every other in-range cell reads as before, and the dimensions stay.
   */
  lemma WriteTouchesOneCell(m: Matrix, row: nat, col: nat, x: int, r2: nat, c2: nat)
    requires m.Valid() && row < m.rows && col < m.cols
    requires r2 < m.rows && c2 < m.cols
    ensures Write(m, row, col, x).Ok?
    ensures Write(m, row, col, x).value.Valid()
    ensures Get(Write(m, row, col, x).value, row, col) == Ok(x)
    ensures (r2, c2) != (row, col) ==> Get(Write(m, row, col, x).value, r2, c2) == Get(m, r2, c2)
  {
    OffsetBelow(row, col, m.rows, m.cols);
    OffsetBelow(r2, c2, m.rows, m.cols);
    if (r2, c2) != (row, col) && Offset(r2, c2, m.cols) == Offset(row, col, m.cols) {
      OffsetInjective(r2, c2, row, col, m.cols);
    }
  }

  /**
   * `Matrix::view` as written: the slice runs from row_start * cols + col_start
   * to row_end * cols + col_end. The range lengths are `usize` subtractions,
   * which panic on a reversed range in a debug build.
   */
  function View(m: Matrix, rowStart: nat, rowEnd: nat, colStart: nat, colEnd: nat): (r: Result<Views.MatrixView>)
    ensures r.Ok? <==>
      rowStart <= rowEnd && colStart <= colEnd && Offset(rowEnd, colEnd, m.cols) <= |m.data|
    ensures r.Ok? ==>
      && r.value.rows == rowEnd - rowStart
      && r.value.cols == colEnd - colStart
      && r.value.data == m.data[Offset(rowStart, colStart, m.cols)..Offset(rowEnd, colEnd, m.cols)]
  {
    OffsetOrdered(rowStart, colStart, rowEnd, colEnd, m.cols);
    var start := Offset(rowStart, colStart, m.cols);
    var end := Offset(rowEnd, colEnd, m.cols);
    if rowEnd < rowStart || colEnd < colStart then Err(RangeUnderflow)
    else if start > end then Err(SliceStartAfterEnd)
    else if end > |m.data| then Err(IndexOutOfRange)
    else Ok(Views.New(rowEnd - rowStart, colEnd - colStart, m.data[start..end]))
  }

  /** A view that is not empty starts at cell (row_start, col_start) of the matrix. */
  lemma ViewOrigin(m: Matrix, rowStart: nat, rowEnd: nat, colStart: nat, colEnd: nat)
    requires View(m, rowStart, rowEnd, colStart, colEnd).Ok?
    requires Offset(rowStart, colStart, m.cols) < Offset(rowEnd, colEnd, m.cols)
    ensures Views.Get(View(m, rowStart, rowEnd, colStart, colEnd).value, 0, 0) == Get(m, rowStart, colStart)
  {
  }

  /**
   * With the full column range 0..cols the flat slice is a true window of
   * whole rows: view(i, j) is m(row_start + i, j).
   */
  lemma FullWidthView(m: Matrix, rowStart: nat, rowEnd: nat, i: nat, j: nat)
    requires m.Valid()
    requires View(m, rowStart, rowEnd, 0, m.cols).Ok?
    requires i < rowEnd - rowStart && j < m.cols
    ensures Views.Get(View(m, rowStart, rowEnd, 0, m.cols).value, i, j) == Get(m, rowStart + i, j)
    ensures Get(m, rowStart + i, j).Ok?
  {
    var v := View(m, rowStart, rowEnd, 0, m.cols).value;
    var w := rowEnd - rowStart;
    assert rowEnd * m.cols - rowStart * m.cols == w * m.cols by {
      MulDistributes(rowEnd, rowStart, m.cols);
    }
    assert |v.data| == w * m.cols + m.cols;
    OffsetBelow(i, j, w, m.cols);
    assert Offset(rowStart, 0, m.cols) + Offset(i, j, m.cols) == Offset(rowStart + i, j, m.cols) by {
      MulDistributes(rowStart + i, rowStart, m.cols);
    }
    MulCancel(rowEnd + 1, m.rows, m.cols);
    OffsetBelow(rowStart + i, j, m.rows, m.cols);
  }

  /** A view of part of a single row is that part of the row: view(0, j) is m(row, col_start + j). */
  lemma SingleRowView(m: Matrix, row: nat, colStart: nat, colEnd: nat, j: nat)
    requires m.Valid()
    requires colEnd <= m.cols && View(m, row, row + 1, colStart, colEnd).Ok?
    requires j < colEnd - colStart
    ensures Views.Get(View(m, row, row + 1, colStart, colEnd).value, 0, j) == Get(m, row, colStart + j)
    ensures Get(m, row, colStart + j).Ok?
  {
    assert Offset(row + 1, colEnd, m.cols) == Offset(row, colEnd, m.cols) + m.cols;
    assert Offset(row, colStart, m.cols) + j == Offset(row, colStart + j, m.cols);
  }

  /** The source's tests of construction, indexing and viewing, stated over the model. */
  lemma StorageExamples()
    ensures New(3, [[1, 2, 3], [4, 5, 6], [7, 8, 9]]).rows == 3
    ensures New(3, [[1, 2, 3], [4, 5, 6], [7, 8, 9]]).cols == 3
    ensures Index(New(3, [[1, 2, 3], [4, 5, 6], [7, 8, 9]]), 0, 0) == Ok(1)
    ensures Index(Write(New(3, [[1, 2, 3], [4, 5, 6], [7, 8, 9]]), 0, 0, 10).value, 0, 0) == Ok(10)
    ensures View(New(3, [[1, 2, 3], [4, 5, 6], [7, 8, 9]]), 0, 2, 0, 2).Ok?
    ensures View(New(3, [[1, 2, 3], [4, 5, 6], [7, 8, 9]]), 0, 2, 0, 2).value.rows == 2
    ensures View(New(3, [[1, 2, 3], [4, 5, 6], [7, 8, 9]]), 0, 2, 0, 2).value.cols == 2
    ensures Views.Index(View(New(3, [[1, 2, 3], [4, 5, 6], [7, 8, 9]]), 0, 2, 0, 2).value, 0, 0) == Ok(1)
  {
    var m := New(3, [[1, 2, 3], [4, 5, 6], [7, 8, 9]]);
    assert m.data == [1, 2, 3, 4, 5, 6, 7, 8, 9] by {
      assert m.data[Offset(0, 0, 3)] == 1;
    }
  }

  /**
   * A rectangle that does not span the full width comes out wrong: the 2 x 2
   * view of rows 0..2 and columns 0..2 of a 3 x 3 matrix reads 3 at (1, 0),
   * where the matrix holds 4; and rows 1..3 with all columns overruns the buffer.
   */
  lemma ViewIsNotARectangle()
    ensures var m := New(3, [[1, 2, 3], [4, 5, 6], [7, 8, 9]]);
      && View(m, 0, 2, 0, 2).Ok?
      && Views.Get(View(m, 0, 2, 0, 2).value, 1, 0) == Ok(3)
      && Get(m, 1, 0) == Ok(4)
      && View(m, 1, 3, 0, 3) == Err(IndexOutOfRange)
  {
    var m := New(3, [[1, 2, 3], [4, 5, 6], [7, 8, 9]]);
    assert m.data[Offset(0, 2, 3)] == 3 && m.data[Offset(1, 0, 3)] == 4;
  }

  /**
   * The intended rectangular window: a strided view that remembers the
   * parent's row stride and the offset of its first cell, checked against
   * the parent's dimensions.
   */
  function SubView(m: Matrix, rowStart: nat, rowEnd: nat, colStart: nat, colEnd: nat): (r: Result<Views.StridedView>)
    ensures r.Ok? <==> rowStart <= rowEnd <= m.rows && colStart <= colEnd <= m.cols
    ensures r.Ok? ==> r.value.rows == rowEnd - rowStart && r.value.cols == colEnd - colStart
  {
    if rowEnd < rowStart || colEnd < colStart then Err(RangeUnderflow)
    else if rowEnd > m.rows || colEnd > m.cols then Err(IndexOutOfRange)
    else Ok(Views.StridedView(rowEnd - rowStart, colEnd - colStart, m.cols,
                              Offset(rowStart, colStart, m.cols), m.data))
  }

  /** Every cell of a sub-view is the matching cell of the parent rectangle. */
  lemma SubViewIsRectangle(m: Matrix, rowStart: nat, rowEnd: nat, colStart: nat, colEnd: nat, i: nat, j: nat)
    requires m.Valid()
    requires SubView(m, rowStart, rowEnd, colStart, colEnd).Ok?
    requires i < rowEnd - rowStart && j < colEnd - colStart
    ensures Get(m, rowStart + i, colStart + j).Ok?
    ensures Views.GetStrided(SubView(m, rowStart, rowEnd, colStart, colEnd).value, i, j)
         == Get(m, rowStart + i, colStart + j)
  {
    assert Offset(rowStart, colStart, m.cols) + Offset(i, j, m.cols)
        == Offset(rowStart + i, colStart + j, m.cols);
    OffsetBelow(rowStart + i, colStart + j, m.rows, m.cols);
  }

  /** A mutable binding `let mut m: Matrix<T>`: the fields the in-place operations update. */
  class MutMatrix {
    var rows: nat
    var cols: nat
    var data: seq<int>

    /** The matrix value currently held. */
    function Value(): Matrix
      reads this
    {
      Matrix(rows, cols, data)
    }

    constructor (m: Matrix)
      ensures Value() == m
    {
      rows, cols, data := m.rows, m.cols, m.data;
    }

    /**
     * `m[(row, col)] = x` through `IndexMut` / `get_mut`: only the cell at
     * offset row * cols + col changes; an offset past the buffer panics.
     */
    method IndexMut(row: nat, col: nat, x: int) returns (r: Result<()>)
      modifies this
      ensures r.Ok? <==> Write(old(Value()), row, col, x).Ok?
      ensures r.Ok? ==> Value() == Write(old(Value()), row, col, x).value
      ensures r.Err? ==> r.error == IndexOutOfRange && Value() == old(Value())
    {
      var at := row * cols + col;
      if at < |data| {
        data := data[at := x];
        r := Ok(());
      } else {
        r := Err(IndexOutOfRange);
      }
    }
  }
}
