/**
 * Index arithmetic shared by the storage, the elementwise engine and the
 * multiplication engine: the row-major offset `row * cols + col` and the
 * facts about division that decode such an offset again.
 */
module Arith {

  /** Row-major offset of cell (row, col) in a buffer whose rows hold `cols` cells. */
  function Offset(row: nat, col: nat, cols: nat): nat
  {
    row * cols + col
  }

  function Min(a: int, b: int): int
  {
    if a <= b then a else b
  }

  /** A value inside the k-th window of width c divides back to k. */
  lemma DivInWindow(q: int, k: int, c: int)
    requires c > 0 && 0 <= k
    requires k * c <= q < k * c + c
    ensures q / c == k && q % c == q - k * c
  {
    var d, m := q / c, q % c;
    assert q == d * c + m && 0 <= m < c;
    if d < k {
      assert d * c <= (k - 1) * c by {
        MulMonotone(d, k - 1, c);
      }
      assert false;
    } else if d > k {
      assert (k + 1) * c <= d * c by {
        MulMonotone(k + 1, d, c);
      }
      assert false;
    }
  }

  lemma MulMonotone(a: int, b: int, c: int)
    requires a <= b && c >= 0
    ensures a * c <= b * c
  {
    assert b * c - a * c == (b - a) * c;
  }

  /** Window i of `count` windows of `size` cells ends where window i + 1 starts, inside the whole. */
  lemma NextWindow(i: nat, count: nat, size: nat)
    requires i < count
    ensures (i + 1) * size == i * size + size
    ensures i * size + size <= count * size
  {
    MulMonotone(i + 1, count, size);
  }

  /** Offsets grow with the row and, within a row, with the column. */
  lemma OffsetOrdered(r1: nat, c1: nat, r2: nat, c2: nat, cols: nat)
    ensures r1 <= r2 && c1 <= c2 ==> Offset(r1, c1, cols) <= Offset(r2, c2, cols)
  {
    if r1 <= r2 {
      MulMonotone(r1, r2, cols);
    }
  }

  /** Multiplication by a positive factor can be cancelled from an inequality. */
  lemma MulCancel(a: int, b: int, c: int)
    requires c > 0 && a * c <= b * c
    ensures a <= b
  {
    if a > b {
      MulMonotone(b + 1, a, c);
      assert false;
    }
  }

  lemma MulDistributes(a: int, b: int, c: int)
    ensures a * c - b * c == (a - b) * c
  {
  }

  /** A cell of a rows x cols grid has an offset inside the buffer. */
  lemma OffsetBelow(row: nat, col: nat, rows: nat, cols: nat)
    requires row < rows && col < cols
    ensures Offset(row, col, cols) < rows * cols
  {
    MulMonotone(row + 1, rows, cols);
  }

  /** The offset of a cell decodes to that cell. */
  lemma OffsetDecode(row: nat, col: nat, cols: nat)
    requires col < cols
    ensures Offset(row, col, cols) / cols == row
    ensures Offset(row, col, cols) % cols == col
  {
    DivInWindow(Offset(row, col, cols), row, cols);
  }

  /** Two cells of the same grid share an offset only if they are the same cell. */
  lemma OffsetInjective(r1: nat, c1: nat, r2: nat, c2: nat, cols: nat)
    requires c1 < cols && c2 < cols
    requires Offset(r1, c1, cols) == Offset(r2, c2, cols)
    ensures r1 == r2 && c1 == c2
  {
    OffsetDecode(r1, c1, cols);
    OffsetDecode(r2, c2, cols);
  }

  /** Every offset below rows * cols is the offset of a cell of the grid. */
  lemma OffsetSplit(q: nat, rows: nat, cols: nat)
    requires q < rows * cols
    ensures cols > 0
    ensures q / cols < rows && q % cols < cols
    ensures Offset(q / cols, q % cols, cols) == q
  {
    if q / cols >= rows {
      MulMonotone(rows, q / cols, cols);
      assert false;
    }
  }
}
