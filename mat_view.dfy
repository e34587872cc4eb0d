/**
 * `MatrixView`: a read-only (rows, cols, slice) triple over borrowed elements.
 * The constructor stores what it is given without checking that the slice
 * holds rows * cols elements; an access only fails when its flat offset
 * `row * cols + col` falls outside the slice.
 */
module Views {
  import opened Errors
  import opened Arith

  datatype MatrixView = MatrixView(rows: nat, cols: nat, data: seq<int>)

  /** `MatrixView::new`: keeps rows, cols and the slice exactly as given. */
  function New(rows: nat, cols: nat, data: seq<int>): (v: MatrixView)
    ensures v.rows == rows && v.cols == cols && v.data == data
  {
    MatrixView(rows, cols, data)
  }

  /** `MatrixView::get`: the element at flat offset row * cols + col of the slice. */
  function Get(v: MatrixView, row: nat, col: nat): (r: Result<int>)
    ensures r.Ok? <==> Offset(row, col, v.cols) < |v.data|
    ensures r.Ok? ==> r.value == v.data[Offset(row, col, v.cols)]
    ensures r.Err? ==> r.error == IndexOutOfRange
  {
    var at := Offset(row, col, v.cols);
    if at < |v.data| then Ok(v.data[at]) else Err(IndexOutOfRange)
  }

  /** `Index<(usize, usize)>`: delegates to `get`. */
  function Index(v: MatrixView, row: nat, col: nat): (r: Result<int>)
    ensures r == Get(v, row, col)
  {
    Get(v, row, col)
  }

  /** Inside a view whose slice really holds rows * cols elements, every cell is readable. */
  lemma GetInsideShape(v: MatrixView, row: nat, col: nat)
    requires |v.data| == v.rows * v.cols
    requires row < v.rows && col < v.cols
    ensures Get(v, row, col).Ok?
  {
    OffsetBelow(row, col, v.rows, v.cols);
  }

  /** The derived `PartialEq`: two views are equal exactly when rows, cols and contents agree. */
  lemma EqualityIsStructural(v1: MatrixView, v2: MatrixView)
    ensures v1 == v2 <==> v1.rows == v2.rows && v1.cols == v2.cols && v1.data == v2.data
  {
  }

  /** The source's own unit tests, stated over the model. */
  lemma ViewExamples()
    ensures New(2, 3, [1, 2, 3, 4]).rows == 2 && New(2, 3, [1, 2, 3, 4]).cols == 3
    ensures New(2, 3, [1, 2, 3, 4]).data == [1, 2, 3, 4]
    ensures Get(New(2, 3, [1, 2, 3, 4, 5, 6]), 0, 0) == Ok(1)
    ensures Get(New(2, 3, [1, 2, 3, 4, 5, 6]), 0, 2) == Ok(3)
    ensures Get(New(2, 3, [1, 2, 3, 4, 5, 6]), 1, 1) == Ok(5)
    ensures Index(New(2, 3, [1, 2, 3, 4, 5, 6]), 0, 0) == Ok(1)
    ensures Index(New(2, 3, [1, 2, 3, 4, 5, 6]), 0, 2) == Ok(3)
    ensures Index(New(2, 3, [1, 2, 3, 4, 5, 6]), 1, 1) == Ok(5)
    ensures New(2, 2, [1, 2, 3, 4]) == New(2, 2, [1, 2, 3, 4])
    ensures New(2, 2, [1, 2, 3, 4]) != New(2, 2, [1, 2, 3, 5])
  {
  }

  /**
   * The rectangular window the flat-slice view is meant to be: it keeps the
   * parent's whole buffer, its row stride and the offset of the first cell,
   * so that row i of the window starts `stride` elements after row i - 1.
   */
  datatype StridedView = StridedView(rows: nat, cols: nat, stride: nat, start: nat, data: seq<int>)

  /** Cell (row, col) of a strided window: offset start + row * stride + col of the buffer. */
  function GetStrided(v: StridedView, row: nat, col: nat): (r: Result<int>)
    ensures r.Ok? <==> v.start + Offset(row, col, v.stride) < |v.data|
    ensures r.Ok? ==> r.value == v.data[v.start + Offset(row, col, v.stride)]
  {
    var at := v.start + Offset(row, col, v.stride);
    if at < |v.data| then Ok(v.data[at]) else Err(IndexOutOfRange)
  }
}
