/**
 * The crate-root `MatrixView` of the earlier layout: the same
 * (rows, cols, slice) triple as the view of the `matrix` module, with
 * `get` and `Index` doing the same flat-offset lookup.
 */
module LegacyView {
  import opened Errors
  import opened Arith
  import Views

  datatype MatrixView = MatrixView(rows: nat, cols: nat, data: seq<int>)

  /** `MatrixView::new`: stores rows, cols and the slice unchecked. */
  function New(rows: nat, cols: nat, data: seq<int>): (v: MatrixView)
    ensures v.rows == rows && v.cols == cols && v.data == data
  {
    MatrixView(rows, cols, data)
  }

  /** `get`: offset row * cols + col of the slice; past its end the access panics. */
  function Get(v: MatrixView, row: nat, col: nat): (r: Result<int>)
    ensures r.Ok? <==> Offset(row, col, v.cols) < |v.data|
    ensures r.Ok? ==> r.value == v.data[Offset(row, col, v.cols)]
    ensures r.Err? ==> r.error == IndexOutOfRange
  {
    if row * v.cols + col < |v.data| then Ok(v.data[row * v.cols + col]) else Err(IndexOutOfRange)
  }

  /** `Index<(usize, usize)>`: delegates to `get`. */
  function Index(v: MatrixView, row: nat, col: nat): (r: Result<int>)
    ensures r == Get(v, row, col)
  {
    Get(v, row, col)
  }

  /** The view of the current layout holding the same triple. */
  function Modern(v: MatrixView): (w: Views.MatrixView)
    ensures w.rows == v.rows && w.cols == v.cols && w.data == v.data
  {
    Views.New(v.rows, v.cols, v.data)
  }

  /** Both layouts' views read every cell alike, failing on the same accesses. */
  lemma GetAgreesWithModern(v: MatrixView, row: nat, col: nat)
    ensures Get(v, row, col) == Views.Get(Modern(v), row, col)
    ensures Index(v, row, col) == Views.Index(Modern(v), row, col)
  {
  }

  /** The source's test: construction keeps the dimensions and the slice as given. */
  lemma LegacyViewExample()
    ensures New(2, 3, [1, 2, 3, 4]).cols == 3 && New(2, 3, [1, 2, 3, 4]).rows == 2
    ensures New(2, 3, [1, 2, 3, 4]).data == [1, 2, 3, 4]
    ensures Get(New(2, 3, [1, 2, 3, 4]), 1, 1) == Err(IndexOutOfRange)
  {
  }
}
