/**
 * `Matrix::transpose`: a new cols x rows matrix built by walking the source
 * column by column and pushing each column's cells top to bottom.
 */
module Transposition {
  import opened Errors
  import opened Arith
  import opened Storage
  import Addition
  import Multiplication

  function TransposedCell(m: Matrix, q: nat): int
    requires m.Valid() && q < m.cols * m.rows
  {
    OffsetSplit(q, m.cols, m.rows);
    OffsetBelow(q % m.rows, q / m.rows, m.rows, m.cols);
    m.data[Offset(q % m.rows, q / m.rows, m.cols)]
  }

  /**
   * The transpose as a value: cols x rows, and offset q = c * rows + r of
   * its buffer holds cell (r, c) of m.
   */
  function Transposed(m: Matrix): (t: Matrix)
    requires m.Valid()
    ensures t.Valid() && t.rows == m.cols && t.cols == m.rows
  {
    var n := m.cols * m.rows;
    Matrix(m.cols, m.rows, seq(n, q requires 0 <= q < n => TransposedCell(m, q)))
  }

  /** Cell (c, r) of the transpose is cell (r, c) of the original. */
  lemma TransposedAt(m: Matrix, r: nat, c: nat)
    requires m.Valid() && r < m.rows && c < m.cols
    ensures Get(Transposed(m), c, r) == Get(m, r, c)
    ensures Get(m, r, c).Ok?
  {
    OffsetBelow(c, r, m.cols, m.rows);
    OffsetDecode(c, r, m.rows);
    OffsetBelow(r, c, m.rows, m.cols);
  }

  /** Transposing twice gives back the original matrix. */
  lemma TransposeInvolutive(m: Matrix)
    requires m.Valid()
    ensures Transposed(Transposed(m)) == m
  {
    var t := Transposed(m);
    var tt := Transposed(t);
    forall q | 0 <= q < |m.data|
      ensures tt.data[q] == m.data[q]
    {
      OffsetSplit(q, m.rows, m.cols);
      var r, c := q / m.cols, q % m.cols;
      TransposedAt(t, c, r);
      TransposedAt(m, r, c);
      assert Get(tt, r, c) == Get(m, r, c);
    }
    assert tt.data == m.data;
  }

  /**
   * `transpose`: for each column, for each row, push m(row, col) onto a fresh
   * buffer; the buffer becomes the data of a cols x rows matrix.
   */
  method Transpose(m: Matrix) returns (t: Matrix)
    requires m.Valid()
    ensures t == Transposed(m)
  {
    var data: seq<int> := [];
    for col := 0 to m.cols
      invariant |data| == col * m.rows
      invariant data <= Transposed(m).data
    {
      data := PushColumn(m, col, data);
      assert col * m.rows + m.rows == (col + 1) * m.rows;
    }
    t := Matrix(m.cols, m.rows, data);
  }

  /** The inner loop: pushes column col of m, top to bottom. */
  method PushColumn(m: Matrix, col: nat, data: seq<int>) returns (out: seq<int>)
    requires m.Valid() && col < m.cols
    requires |data| == col * m.rows && data <= Transposed(m).data
    ensures |out| == col * m.rows + m.rows && out <= Transposed(m).data
  {
    out := data;
    for row := 0 to m.rows
      invariant |out| == Offset(col, row, m.rows)
      invariant out <= Transposed(m).data
    {
      PushedCell(m, row, col);
      out := out + [m.data[row * m.cols + col]];
    }
  }

  /** The cell `transpose` pushes at step (col, row) is the one Transposed places there. */
  lemma PushedCell(m: Matrix, row: nat, col: nat)
    requires m.Valid() && row < m.rows && col < m.cols
    ensures Offset(col, row, m.rows) < |Transposed(m).data|
    ensures Offset(row, col, m.cols) < |m.data|
    ensures Transposed(m).data[Offset(col, row, m.rows)] == m.data[Offset(row, col, m.cols)]
  {
    OffsetBelow(col, row, m.cols, m.rows);
    OffsetBelow(row, col, m.rows, m.cols);
    OffsetDecode(col, row, m.rows);
  }

  /** (A + B)^T == A^T + B^T. */
  lemma TransposeOfSum(a: Matrix, b: Matrix)
    requires a.Valid() && b.Valid() && a.rows == b.rows && a.cols == b.cols
    ensures Transposed(Addition.Sum(a, b).value) == Addition.Sum(Transposed(a), Transposed(b)).value
  {
    var lhs := Transposed(Addition.Sum(a, b).value);
    var rhs := Addition.Sum(Transposed(a), Transposed(b)).value;
    forall q | 0 <= q < |lhs.data|
      ensures lhs.data[q] == rhs.data[q]
    {
      OffsetSplit(q, a.cols, a.rows);
      OffsetBelow(q % a.rows, q / a.rows, a.rows, a.cols);
    }
    assert lhs.data == rhs.data;
  }

  /** Summand p of cell (i, j) of A * B is summand p of cell (j, i) of B^T * A^T. */
  lemma TermOfTransposes(a: Matrix, b: Matrix, i: nat, j: nat, p: nat)
    requires a.Valid() && b.Valid() && a.cols == b.rows
    requires i < a.rows && j < b.cols && p < a.cols
    ensures Multiplication.Term(Transposed(b), Transposed(a), j, i, p) == Multiplication.Term(a, b, i, j, p)
  {
    TransposedAt(b, p, j);
    TransposedAt(a, i, p);
    OffsetBelow(j, p, b.cols, b.rows);
    OffsetBelow(p, i, a.cols, a.rows);
    var x, y := a.data[Offset(i, p, a.cols)], b.data[Offset(p, j, b.cols)];
    assert Multiplication.Term(Transposed(b), Transposed(a), j, i, p) == y * x;
  }

  lemma {:induction false} DotOfTransposes(a: Matrix, b: Matrix, i: nat, j: nat, k: nat)
    requires a.Valid() && b.Valid() && a.cols == b.rows
    requires i < a.rows && j < b.cols && k <= a.cols
    ensures Multiplication.Dot(Transposed(b), Transposed(a), j, i, k) == Multiplication.Dot(a, b, i, j, k)
  {
    if k > 0 {
      DotOfTransposes(a, b, i, j, k - 1);
      TermOfTransposes(a, b, i, j, k - 1);
    }
  }

  /** (A * B)^T == B^T * A^T. */
  lemma TransposeOfProduct(a: Matrix, b: Matrix)
    requires a.Valid() && b.Valid() && a.cols == b.rows
    ensures Multiplication.Product(Transposed(b), Transposed(a)) == Ok(Transposed(Multiplication.Product(a, b).value))
  {
    var p := Multiplication.Product(a, b).value;
    var lhs := Multiplication.Product(Transposed(b), Transposed(a)).value;
    var rhs := Transposed(p);
    forall q | 0 <= q < |lhs.data|
      ensures lhs.data[q] == rhs.data[q]
    {
      OffsetSplit(q, b.cols, a.rows);
      var j, i := q / a.rows, q % a.rows;
      Multiplication.ProductAt(Transposed(b), Transposed(a), j, i);
      Multiplication.ProductAt(a, b, i, j);
      TransposedAt(p, i, j);
      DotOfTransposes(a, b, i, j, a.cols);
    }
    assert lhs.data == rhs.data;
  }

  /** The literals of the transpose tests, flattened row by row. */
  lemma TransposeLiterals()
    ensures New(2, [[1, 2], [3, 4], [5, 6]]) == Matrix(3, 2, [1, 2, 3, 4, 5, 6])
    ensures New(3, [[1, 2, 3]]) == Matrix(1, 3, [1, 2, 3])
  {
    var tall: seq<seq<int>> := [[1, 2], [3, 4], [5, 6]];
    assert tall[1..] == [[3, 4], [5, 6]];
    assert tall[1..][1..] == [[5, 6]];
    assert Flatten(tall[1..][1..], 2) == [5, 6];
    assert Flatten(tall, 2) == [1, 2, 3, 4, 5, 6];
    var row: seq<seq<int>> := [[1, 2, 3]];
    assert row[1..] == [];
    assert Flatten(row, 3) == [1, 2, 3];
  }

  /** A buffer is the literal of its cells, spelled out without a quantifier. */
  lemma FourCells(s: seq<int>, a: int, b: int, c: int, d: int)
    requires |s| == 4 && s[0] == a && s[1] == b && s[2] == c && s[3] == d
    ensures s == [a, b, c, d]
  {
  }

  lemma SixCells(s: seq<int>, a: int, b: int, c: int, d: int, e: int, f: int)
    requires |s| == 6 && s[0] == a && s[1] == b && s[2] == c && s[3] == d && s[4] == e && s[5] == f
    ensures s == [a, b, c, d, e, f]
  {
  }

  /** A 3 x 2 matrix transposes into the 2 x 3 matrix of its columns. */
  lemma TransposeOf3x2(a: int, b: int, c: int, d: int, e: int, f: int)
    ensures Transposed(Matrix(3, 2, [a, b, c, d, e, f])) == Matrix(2, 3, [a, c, e, b, d, f])
  {
    var m := Matrix(3, 2, [a, b, c, d, e, f]);
    var t := Transposed(m).data;
    assert t[0] == a by { PushedCell(m, 0, 0); }
    assert t[1] == c by { PushedCell(m, 1, 0); }
    assert t[2] == e by { PushedCell(m, 2, 0); }
    assert t[3] == b by { PushedCell(m, 0, 1); }
    assert t[4] == d by { PushedCell(m, 1, 1); }
    assert t[5] == f by { PushedCell(m, 2, 1); }
    SixCells(t, a, c, e, b, d, f);
  }

  /** A 2 x 2 matrix transposes by swapping its off-diagonal cells. */
  lemma TransposeOf2x2(a: int, b: int, c: int, d: int)
    ensures Transposed(Matrix(2, 2, [a, b, c, d])) == Matrix(2, 2, [a, c, b, d])
  {
    var m := Matrix(2, 2, [a, b, c, d]);
    var t := Transposed(m).data;
    assert t[0] == a by { PushedCell(m, 0, 0); }
    assert t[1] == c by { PushedCell(m, 1, 0); }
    assert t[2] == b by { PushedCell(m, 0, 1); }
    assert t[3] == d by { PushedCell(m, 1, 1); }
    FourCells(t, a, c, b, d);
  }

  /** A single row transposes into a single column over the same buffer. */
  lemma TransposeOfRow(m: Matrix)
    requires m.Valid() && m.rows == 1
    ensures Transposed(m) == Matrix(m.cols, 1, m.data)
  {
    forall q | 0 <= q < m.cols
      ensures Transposed(m).data[q] == m.data[q]
    {
      PushedCell(m, 0, q);
    }
  }

  /** The source's tests: a 3 x 2, a 2 x 2 and a 1 x 3 matrix. */
  lemma TransposeExamples()
    ensures Transposed(New(2, [[1, 2], [3, 4], [5, 6]])) == Matrix(2, 3, [1, 3, 5, 2, 4, 6])
    ensures Transposed(New(2, [[1, 2], [3, 4]])) == Matrix(2, 2, [1, 3, 2, 4])
    ensures Transposed(New(3, [[1, 2, 3]])) == Matrix(3, 1, [1, 2, 3])
  {
    TransposeLiterals();
    Multiplication.LiteralsFlatten();
    TransposeOf3x2(1, 2, 3, 4, 5, 6);
    TransposeOf2x2(1, 2, 3, 4);
    TransposeOfRow(Matrix(1, 3, [1, 2, 3]));
  }
}
