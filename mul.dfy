/**
 * Multiplication: a matrix times a scalar (`m * x`, `m * &x`) and the
 * textbook product of two matrices (`multiply_matrices`, reached from all
 * four owned/borrowed `Mul` impls).
 */
module Multiplication {
  import opened Errors
  import opened Arith
  import opened Storage
  import Addition

  /**
   * Dot(lhs, rhs, i, j, k): the sum over p < k of lhs(i, p) * rhs(p, j), the
   * value cell (i, j) of the product holds after k passes of the inner loop.
   */
  function Dot(lhs: Matrix, rhs: Matrix, i: nat, j: nat, k: nat): int
    requires lhs.Valid() && rhs.Valid() && lhs.cols == rhs.rows
    requires i < lhs.rows && j < rhs.cols && k <= lhs.cols
  {
    if k == 0 then 0 else Dot(lhs, rhs, i, j, k - 1) + Term(lhs, rhs, i, j, k - 1)
  }

  /** The p-th summand of cell (i, j): lhs(i, p) * rhs(p, j). */
  function Term(lhs: Matrix, rhs: Matrix, i: nat, j: nat, p: nat): int
    requires lhs.Valid() && rhs.Valid() && lhs.cols == rhs.rows
    requires i < lhs.rows && j < rhs.cols && p < lhs.cols
  {
    OffsetBelow(i, p, lhs.rows, lhs.cols);
    OffsetBelow(p, j, rhs.rows, rhs.cols);
    lhs.data[Offset(i, p, lhs.cols)] * rhs.data[Offset(p, j, rhs.cols)]
  }

  function ProductCell(lhs: Matrix, rhs: Matrix, q: nat): int
    requires lhs.Valid() && rhs.Valid() && lhs.cols == rhs.rows
    requires q < lhs.rows * rhs.cols
  {
    OffsetSplit(q, lhs.rows, rhs.cols);
    Dot(lhs, rhs, q / rhs.cols, q % rhs.cols, lhs.cols)
  }

  /**
   * The mathematical product: defined when lhs has as many columns as rhs
   * has rows, and then a lhs.rows x rhs.cols matrix.
   */
  function Product(lhs: Matrix, rhs: Matrix): (r: Result<Matrix>)
    requires lhs.Valid() && rhs.Valid()
    ensures r.Ok? <==> lhs.cols == rhs.rows
    ensures r.Err? ==> r.error == IncompatibleDimensions
    ensures r.Ok? ==> r.value.Valid() && r.value.rows == lhs.rows && r.value.cols == rhs.cols
  {
    if lhs.cols != rhs.rows then Err(IncompatibleDimensions)
    else
      var n := lhs.rows * rhs.cols;
      Ok(Matrix(lhs.rows, rhs.cols, seq(n, q requires 0 <= q < n => ProductCell(lhs, rhs, q))))
  }

  /** Cell (i, j) of the product is the dot product of row i of lhs with column j of rhs. */
  lemma ProductAt(lhs: Matrix, rhs: Matrix, i: nat, j: nat)
    requires lhs.Valid() && rhs.Valid() && lhs.cols == rhs.rows
    requires i < lhs.rows && j < rhs.cols
    ensures Get(Product(lhs, rhs).value, i, j) == Ok(Dot(lhs, rhs, i, j, lhs.cols))
  {
    OffsetBelow(i, j, lhs.rows, rhs.cols);
    OffsetDecode(i, j, rhs.cols);
  }

  /**
   * The state of `result` in the i / j / k loop when cell (i, j) is next:
   * every cell before it in row-major order holds its dot product, every
   * cell from it on still holds the default 0.
   */
  ghost predicate FilledBefore(result: Matrix, lhs: Matrix, rhs: Matrix, i: nat, j: nat)
    requires lhs.Valid() && rhs.Valid() && lhs.cols == rhs.rows
  {
    && result.Valid() && result.rows == lhs.rows && result.cols == rhs.cols
    && forall i', j' :: 0 <= i' < lhs.rows && 0 <= j' < rhs.cols ==>
      && Offset(i', j', rhs.cols) < |result.data|
      && result.data[Offset(i', j', rhs.cols)] ==
         if i' < i || (i' == i && j' < j) then Dot(lhs, rhs, i', j', lhs.cols) else 0
  }

  /**
   * `multiply_matrices`: panics unless lhs.cols == rhs.rows, starts from a
   * default-filled lhs.rows x rhs.cols matrix and runs the i / j / k loop,
   * adding lhs(i, k) * rhs(k, j) into cell (i, j) through Index and IndexMut.
   * The result is the mathematical product.
   */
  method MultiplyMatrices(lhs: Matrix, rhs: Matrix) returns (r: Result<Matrix>)
    requires lhs.Valid() && rhs.Valid()
    ensures r == Product(lhs, rhs)
  {
    if lhs.cols != rhs.rows {
      return Err(IncompatibleDimensions);
    }
    var result := Empty(lhs.rows, rhs.cols);
    forall i', j' | 0 <= i' < lhs.rows && 0 <= j' < rhs.cols
      ensures Offset(i', j', rhs.cols) < |result.data|
    {
      OffsetBelow(i', j', lhs.rows, rhs.cols);
    }
    for i := 0 to lhs.rows
      invariant FilledBefore(result, lhs, rhs, i, 0)
    {
      result := FillRow(result, lhs, rhs, i);
    }
    AllFilledIsProduct(result, lhs, rhs);
    r := Ok(result);
  }

  /** The j / k loops for one row i: fills cells (i, 0) .. (i, cols - 1). */
  method FillRow(result: Matrix, lhs: Matrix, rhs: Matrix, i: nat) returns (r: Matrix)
    requires lhs.Valid() && rhs.Valid() && lhs.cols == rhs.rows && i < lhs.rows
    requires FilledBefore(result, lhs, rhs, i, 0)
    ensures FilledBefore(r, lhs, rhs, i + 1, 0)
  {
    r := result;
    for j := 0 to rhs.cols
      invariant FilledBefore(r, lhs, rhs, i, j)
    {
      ghost var before := r;
      OffsetBelow(i, j, lhs.rows, rhs.cols);
      r := AccumulateCell(r, lhs, rhs, i, j);
      forall i', j' | 0 <= i' < lhs.rows && 0 <= j' < rhs.cols && (i' != i || j' != j)
        ensures r.data[Offset(i', j', rhs.cols)] == before.data[Offset(i', j', rhs.cols)]
      {
        if Offset(i', j', rhs.cols) == Offset(i, j, rhs.cols) {
          OffsetInjective(i', j', i, j, rhs.cols);
        }
      }
    }
  }

  /** The k loop: adds lhs(i, k) * rhs(k, j) into cell (i, j) for every k, touching no other cell. */
  method AccumulateCell(result: Matrix, lhs: Matrix, rhs: Matrix, i: nat, j: nat) returns (r: Matrix)
    requires lhs.Valid() && rhs.Valid() && lhs.cols == rhs.rows
    requires i < lhs.rows && j < rhs.cols
    requires result.Valid() && result.rows == lhs.rows && result.cols == rhs.cols
    ensures r.rows == result.rows && r.cols == result.cols
    ensures Offset(i, j, rhs.cols) < |result.data|
    ensures r.data == result.data[Offset(i, j, rhs.cols) := result.data[Offset(i, j, rhs.cols)] + Dot(lhs, rhs, i, j, lhs.cols)]
  {
    OffsetBelow(i, j, lhs.rows, rhs.cols);
    var at := Offset(i, j, rhs.cols);
    r := result;
    for k := 0 to lhs.cols
      invariant r.rows == result.rows && r.cols == result.cols
      invariant r.data == result.data[at := result.data[at] + Dot(lhs, rhs, i, j, k)]
    {
      OffsetBelow(i, k, lhs.rows, lhs.cols);
      OffsetBelow(k, j, rhs.rows, rhs.cols);
      var x := Index(r, i, j).value + Index(lhs, i, k).value * Index(rhs, k, j).value;
      r := Write(r, i, j, x).value;
    }
  }

  /** Once every cell is filled, the buffer is the product's. */
  lemma AllFilledIsProduct(result: Matrix, lhs: Matrix, rhs: Matrix)
    requires lhs.Valid() && rhs.Valid() && lhs.cols == rhs.rows
    requires FilledBefore(result, lhs, rhs, lhs.rows, 0)
    ensures result == Product(lhs, rhs).value
  {
    var product := Product(lhs, rhs).value;
    forall q | 0 <= q < |product.data|
      ensures result.data[q] == product.data[q]
    {
      OffsetSplit(q, lhs.rows, rhs.cols);
      var i, j := q / rhs.cols, q % rhs.cols;
      assert result.data[Offset(i, j, rhs.cols)] == Dot(lhs, rhs, i, j, lhs.cols);
      assert product.data[q] == ProductCell(lhs, rhs, q);
    }
    assert result.data == product.data;
  }

  /** `Mul<T>`: every element multiplied by the scalar, shape unchanged. */
  function MulScalar(m: Matrix, x: int): (r: Matrix)
    ensures r.rows == m.rows && r.cols == m.cols && |r.data| == |m.data|
    ensures forall i :: 0 <= i < |m.data| ==> r.data[i] == m.data[i] * x
  {
    Matrix(m.rows, m.cols, seq(|m.data|, i requires 0 <= i < |m.data| => m.data[i] * x))
  }

  /** `Mul<&T>`: the same as multiplying by a copy of the scalar. */
  function MulScalarRef(m: Matrix, x: int): (r: Matrix)
    ensures r == MulScalar(m, x)
  {
    MulScalar(m, x)
  }

  /** Scaling by a then by b is scaling by a * b. */
  lemma MulScalarComposes(m: Matrix, a: int, b: int)
    ensures MulScalar(MulScalar(m, a), b) == MulScalar(m, a * b)
  {
    forall i | 0 <= i < |m.data|
      ensures MulScalar(MulScalar(m, a), b).data[i] == MulScalar(m, a * b).data[i]
    {
      assert m.data[i] * a * b == m.data[i] * (a * b);
    }
  }

  /** Scaling distributes over elementwise addition. */
  lemma MulScalarDistributesOverSum(m1: Matrix, m2: Matrix, x: int)
    requires m1.Valid() && m2.Valid() && m1.rows == m2.rows && m1.cols == m2.cols
    ensures Addition.Sum(MulScalar(m1, x), MulScalar(m2, x)) == Ok(MulScalar(Addition.Sum(m1, m2).value, x))
  {
    var s := Addition.Sum(m1, m2).value;
    forall i | 0 <= i < |s.data|
      ensures Addition.Sum(MulScalar(m1, x), MulScalar(m2, x)).value.data[i] == MulScalar(s, x).data[i]
    {
      assert (m1.data[i] + m2.data[i]) * x == m1.data[i] * x + m2.data[i] * x;
    }
    assert Addition.Sum(MulScalar(m1, x), MulScalar(m2, x)).value.data == MulScalar(s, x).data;
  }

  lemma MulRegroup(a: int, x: int, b: int)
    ensures (a * x) * b == (a * b) * x
  {
  }

  /** Scaling the left factor scales each summand. */
  lemma TermScalesLeft(lhs: Matrix, rhs: Matrix, x: int, i: nat, j: nat, p: nat)
    requires lhs.Valid() && rhs.Valid() && lhs.cols == rhs.rows
    requires i < lhs.rows && j < rhs.cols && p < lhs.cols
    ensures Term(MulScalar(lhs, x), rhs, i, j, p) == Term(lhs, rhs, i, j, p) * x
  {
    OffsetBelow(i, p, lhs.rows, lhs.cols);
    OffsetBelow(p, j, rhs.rows, rhs.cols);
    var a, b := lhs.data[Offset(i, p, lhs.cols)], rhs.data[Offset(p, j, rhs.cols)];
    assert MulScalar(lhs, x).data[Offset(i, p, lhs.cols)] == a * x;
    MulRegroup(a, x, b);
  }

  /** Scaling the left factor scales every partial dot product. */
  lemma {:induction false} DotScalesLeft(lhs: Matrix, rhs: Matrix, x: int, i: nat, j: nat, k: nat)
    requires lhs.Valid() && rhs.Valid() && lhs.cols == rhs.rows
    requires i < lhs.rows && j < rhs.cols && k <= lhs.cols
    ensures Dot(MulScalar(lhs, x), rhs, i, j, k) == Dot(lhs, rhs, i, j, k) * x
  {
    if k > 0 {
      DotScalesLeft(lhs, rhs, x, i, j, k - 1);
      TermScalesLeft(lhs, rhs, x, i, j, k - 1);
      var d, t := Dot(lhs, rhs, i, j, k - 1), Term(lhs, rhs, i, j, k - 1);
      assert (d + t) * x == d * x + t * x;
    }
  }

  /** (x * A) * B == x * (A * B). */
  lemma ProductOfScaled(lhs: Matrix, rhs: Matrix, x: int)
    requires lhs.Valid() && rhs.Valid() && lhs.cols == rhs.rows
    ensures Product(MulScalar(lhs, x), rhs) == Ok(MulScalar(Product(lhs, rhs).value, x))
  {
    var p := Product(lhs, rhs).value;
    var ps := Product(MulScalar(lhs, x), rhs).value;
    forall q | 0 <= q < |p.data|
      ensures ps.data[q] == MulScalar(p, x).data[q]
    {
      CellScales(lhs, rhs, x, q);
    }
    assert ps.data == MulScalar(p, x).data;
  }

  /** One cell of (x * A) * B is x times the matching cell of A * B. */
  lemma CellScales(lhs: Matrix, rhs: Matrix, x: int, q: nat)
    requires lhs.Valid() && rhs.Valid() && lhs.cols == rhs.rows
    requires q < lhs.rows * rhs.cols
    ensures ProductCell(MulScalar(lhs, x), rhs, q) == ProductCell(lhs, rhs, q) * x
  {
    OffsetSplit(q, lhs.rows, rhs.cols);
    DotScalesLeft(lhs, rhs, x, q / rhs.cols, q % rhs.cols, lhs.cols);
  }

  /** Each summand against B + C is the sum of those against B and against C. */
  lemma TermDistributes(a: Matrix, b: Matrix, c: Matrix, i: nat, j: nat, p: nat)
    requires a.Valid() && b.Valid() && c.Valid()
    requires a.cols == b.rows && b.rows == c.rows && b.cols == c.cols
    requires i < a.rows && j < b.cols && p < a.cols
    ensures Term(a, Addition.Sum(b, c).value, i, j, p) == Term(a, b, i, j, p) + Term(a, c, i, j, p)
  {
    OffsetBelow(p, j, b.rows, b.cols);
    OffsetBelow(i, p, a.rows, a.cols);
    var x := a.data[Offset(i, p, a.cols)];
    var y, z := b.data[Offset(p, j, b.cols)], c.data[Offset(p, j, c.cols)];
    assert Addition.Sum(b, c).value.data[Offset(p, j, b.cols)] == y + z;
    assert x * (y + z) == x * y + x * z;
  }

  /** The partial dot product against B + C is the sum of those against B and against C. */
  lemma {:induction false} DotDistributes(a: Matrix, b: Matrix, c: Matrix, i: nat, j: nat, k: nat)
    requires a.Valid() && b.Valid() && c.Valid()
    requires a.cols == b.rows && b.rows == c.rows && b.cols == c.cols
    requires i < a.rows && j < b.cols && k <= a.cols
    ensures Dot(a, Addition.Sum(b, c).value, i, j, k) == Dot(a, b, i, j, k) + Dot(a, c, i, j, k)
  {
    if k > 0 {
      DotDistributes(a, b, c, i, j, k - 1);
      TermDistributes(a, b, c, i, j, k - 1);
    }
  }

  /** A * (B + C) == A * B + A * C. */
  lemma ProductDistributes(a: Matrix, b: Matrix, c: Matrix)
    requires a.Valid() && b.Valid() && c.Valid()
    requires a.cols == b.rows && b.rows == c.rows && b.cols == c.cols
    ensures Product(a, Addition.Sum(b, c).value) == Addition.Sum(Product(a, b).value, Product(a, c).value)
  {
    var s := Addition.Sum(b, c).value;
    var pb, pc := Product(a, b).value, Product(a, c).value;
    var lhs := Product(a, s).value;
    var rhs := Addition.Sum(pb, pc).value;
    forall q | 0 <= q < |lhs.data|
      ensures lhs.data[q] == rhs.data[q]
    {
      CellDistributes(a, b, c, q);
    }
    assert lhs.data == rhs.data;
  }

  /** One cell of A * (B + C) is the sum of the matching cells of A * B and A * C. */
  lemma CellDistributes(a: Matrix, b: Matrix, c: Matrix, q: nat)
    requires a.Valid() && b.Valid() && c.Valid()
    requires a.cols == b.rows && b.rows == c.rows && b.cols == c.cols
    requires q < a.rows * b.cols
    ensures ProductCell(a, Addition.Sum(b, c).value, q) == ProductCell(a, b, q) + ProductCell(a, c, q)
  {
    OffsetSplit(q, a.rows, b.cols);
    DotDistributes(a, b, c, q / b.cols, q % b.cols, a.cols);
  }

  // ---------------------------------------------------------------------
  // Associativity: (A * B) * C == A * (B * C)
  // ---------------------------------------------------------------------

  /** A, B and C can be multiplied in a row: A * B and B * C are both defined. */
  ghost predicate Chain(a: Matrix, b: Matrix, c: Matrix)
  {
    a.Valid() && b.Valid() && c.Valid() && a.cols == b.rows && b.cols == c.rows
  }

  /** The summand a(i, p) * b(p, q) * c(q, l) of cell (i, l) of both triple products. */
  ghost function Triple(a: Matrix, b: Matrix, c: Matrix, i: nat, l: nat, p: nat, q: nat): int
    requires Chain(a, b, c) && i < a.rows && l < c.cols && p < a.cols && q < b.cols
  {
    OffsetBelow(q, l, c.rows, c.cols);
    Term(a, b, i, q, p) * c.data[Offset(q, l, c.cols)]
  }

  /** The sum over q < qk of the summands with middle index p fixed. */
  ghost function RowSum(a: Matrix, b: Matrix, c: Matrix, i: nat, l: nat, p: nat, qk: nat): int
    requires Chain(a, b, c) && i < a.rows && l < c.cols && p < a.cols && qk <= b.cols
  {
    if qk == 0 then 0 else RowSum(a, b, c, i, l, p, qk - 1) + Triple(a, b, c, i, l, p, qk - 1)
  }

  /** The sum over p < pk of the summands with inner index q fixed. */
  ghost function ColSum(a: Matrix, b: Matrix, c: Matrix, i: nat, l: nat, q: nat, pk: nat): int
    requires Chain(a, b, c) && i < a.rows && l < c.cols && q < b.cols && pk <= a.cols
  {
    if pk == 0 then 0 else ColSum(a, b, c, i, l, q, pk - 1) + Triple(a, b, c, i, l, pk - 1, q)
  }

  /** The double sum taken p-outer: the order A * (B * C) adds in. */
  ghost function SumOfRowSums(a: Matrix, b: Matrix, c: Matrix, i: nat, l: nat, pk: nat, qk: nat): int
    requires Chain(a, b, c) && i < a.rows && l < c.cols && pk <= a.cols && qk <= b.cols
  {
    if pk == 0 then 0 else SumOfRowSums(a, b, c, i, l, pk - 1, qk) + RowSum(a, b, c, i, l, pk - 1, qk)
  }

  /** The double sum taken q-outer: the order (A * B) * C adds in. */
  ghost function SumOfColSums(a: Matrix, b: Matrix, c: Matrix, i: nat, l: nat, qk: nat, pk: nat): int
    requires Chain(a, b, c) && i < a.rows && l < c.cols && qk <= b.cols && pk <= a.cols
  {
    if qk == 0 then 0 else SumOfColSums(a, b, c, i, l, qk - 1, pk) + ColSum(a, b, c, i, l, qk - 1, pk)
  }

  /** With no inner index the p-outer sum is empty. */
  lemma {:induction false} NoColumns(a: Matrix, b: Matrix, c: Matrix, i: nat, l: nat, pk: nat)
    requires Chain(a, b, c) && i < a.rows && l < c.cols && pk <= a.cols
    ensures SumOfRowSums(a, b, c, i, l, pk, 0) == 0
  {
    if pk > 0 {
      NoColumns(a, b, c, i, l, pk - 1);
    }
  }

  /** Dropping the last inner index from the p-outer sum removes exactly that index's column sum. */
  lemma {:induction false} PeelColumn(a: Matrix, b: Matrix, c: Matrix, i: nat, l: nat, pk: nat, qk: nat)
    requires Chain(a, b, c) && i < a.rows && l < c.cols && pk <= a.cols && 0 < qk <= b.cols
    ensures SumOfRowSums(a, b, c, i, l, pk, qk)
         == SumOfRowSums(a, b, c, i, l, pk, qk - 1) + ColSum(a, b, c, i, l, qk - 1, pk)
  {
    if pk > 0 {
      PeelColumn(a, b, c, i, l, pk - 1, qk);
    }
  }

  /** The two orders of summation agree. */
  lemma {:induction false} ExchangeSums(a: Matrix, b: Matrix, c: Matrix, i: nat, l: nat, pk: nat, qk: nat)
    requires Chain(a, b, c) && i < a.rows && l < c.cols && pk <= a.cols && qk <= b.cols
    ensures SumOfColSums(a, b, c, i, l, qk, pk) == SumOfRowSums(a, b, c, i, l, pk, qk)
  {
    if qk == 0 {
      NoColumns(a, b, c, i, l, pk);
    } else {
      ExchangeSums(a, b, c, i, l, pk, qk - 1);
      PeelColumn(a, b, c, i, l, pk, qk);
    }
  }

  /** A partial dot product of A * B, times c(q, l), is the column sum for q. */
  lemma {:induction false} DotTimesCell(a: Matrix, b: Matrix, c: Matrix, i: nat, l: nat, q: nat, pk: nat)
    requires Chain(a, b, c) && i < a.rows && l < c.cols && q < b.cols && pk <= a.cols
    ensures q < c.rows && Offset(q, l, c.cols) < |c.data|
    ensures Dot(a, b, i, q, pk) * c.data[Offset(q, l, c.cols)] == ColSum(a, b, c, i, l, q, pk)
  {
    OffsetBelow(q, l, c.rows, c.cols);
    if pk > 0 {
      DotTimesCell(a, b, c, i, l, q, pk - 1);
      var d, t, z := Dot(a, b, i, q, pk - 1), Term(a, b, i, q, pk - 1), c.data[Offset(q, l, c.cols)];
      assert (d + t) * z == d * z + t * z;
    }
  }

  /** a(i, p) times a partial dot product of B * C is the row sum for p. */
  lemma {:induction false} CellTimesDot(a: Matrix, b: Matrix, c: Matrix, i: nat, l: nat, p: nat, qk: nat)
    requires Chain(a, b, c) && i < a.rows && l < c.cols && p < a.cols && qk <= b.cols
    ensures Offset(i, p, a.cols) < |a.data|
    ensures a.data[Offset(i, p, a.cols)] * Dot(b, c, p, l, qk) == RowSum(a, b, c, i, l, p, qk)
  {
    OffsetBelow(i, p, a.rows, a.cols);
    if qk > 0 {
      CellTimesDot(a, b, c, i, l, p, qk - 1);
      var q := qk - 1;
      OffsetBelow(p, q, b.rows, b.cols);
      OffsetBelow(q, l, c.rows, c.cols);
      var x, y, z := a.data[Offset(i, p, a.cols)], b.data[Offset(p, q, b.cols)], c.data[Offset(q, l, c.cols)];
      var d := Dot(b, c, p, l, q);
      assert Term(b, c, p, l, q) == y * z;
      assert Triple(a, b, c, i, l, p, q) == (x * y) * z;
      assert x * (d + y * z) == x * d + (x * y) * z;
    }
  }

  /** A partial dot product of (A * B) against C is the q-outer double sum. */
  lemma {:induction false} DotOfLeftProduct(a: Matrix, b: Matrix, c: Matrix, i: nat, l: nat, qk: nat)
    requires Chain(a, b, c) && i < a.rows && l < c.cols && qk <= b.cols
    ensures Dot(Product(a, b).value, c, i, l, qk) == SumOfColSums(a, b, c, i, l, qk, a.cols)
  {
    if qk > 0 {
      var q := qk - 1;
      DotOfLeftProduct(a, b, c, i, l, q);
      ProductAt(a, b, i, q);
      DotTimesCell(a, b, c, i, l, q, a.cols);
    }
  }

  /** A partial dot product of A against (B * C) is the p-outer double sum. */
  lemma {:induction false} DotOfRightProduct(a: Matrix, b: Matrix, c: Matrix, i: nat, l: nat, pk: nat)
    requires Chain(a, b, c) && i < a.rows && l < c.cols && pk <= a.cols
    ensures Dot(a, Product(b, c).value, i, l, pk) == SumOfRowSums(a, b, c, i, l, pk, b.cols)
  {
    if pk > 0 {
      var p := pk - 1;
      DotOfRightProduct(a, b, c, i, l, p);
      ProductAt(b, c, p, l);
      CellTimesDot(a, b, c, i, l, p, b.cols);
    }
  }

  /** One cell of (A * B) * C equals the matching cell of A * (B * C). */
  lemma CellAssociates(a: Matrix, b: Matrix, c: Matrix, q: nat)
    requires Chain(a, b, c) && q < a.rows * c.cols
    ensures ProductCell(Product(a, b).value, c, q) == ProductCell(a, Product(b, c).value, q)
  {
    OffsetSplit(q, a.rows, c.cols);
    var i, l := q / c.cols, q % c.cols;
    DotOfLeftProduct(a, b, c, i, l, b.cols);
    DotOfRightProduct(a, b, c, i, l, a.cols);
    ExchangeSums(a, b, c, i, l, a.cols, b.cols);
  }

  /** (A * B) * C == A * (B * C) whenever both products are defined. */
  lemma ProductAssociates(a: Matrix, b: Matrix, c: Matrix)
    requires a.Valid() && b.Valid() && c.Valid() && a.cols == b.rows && b.cols == c.rows
    ensures Product(Product(a, b).value, c) == Product(a, Product(b, c).value)
  {
    var lhs := Product(Product(a, b).value, c).value;
    var rhs := Product(a, Product(b, c).value).value;
    forall q | 0 <= q < |lhs.data|
      ensures lhs.data[q] == rhs.data[q]
    {
      CellAssociates(a, b, c, q);
    }
    assert lhs.data == rhs.data;
  }

  /** The source's tests of the scalar product. */
  lemma MulScalarExamples()
    ensures MulScalar(New(2, [[1, 2], [3, 4]]), 2).data == [2, 4, 6, 8]
    ensures MulScalar(New(2, [[1, 2], [3, 4], [5, 6]]), 3).rows == 3
    ensures MulScalar(New(2, [[1, 2], [3, 4], [5, 6]]), 3).cols == 2
  {
    var m := New(2, [[1, 2], [3, 4]]);
    assert m.data == [1, 2, 3, 4];
  }

  lemma LiteralsFlatten()
    ensures New(2, [[1, 2], [3, 4]]) == Matrix(2, 2, [1, 2, 3, 4])
    ensures New(2, [[5, 6], [7, 8]]) == Matrix(2, 2, [5, 6, 7, 8])
  {
    assert New(2, [[1, 2], [3, 4]]).data == [1, 2, 3, 4];
    assert New(2, [[5, 6], [7, 8]]).data == [5, 6, 7, 8];
  }

  /** The source's test of the matrix product: [[1, 2], [3, 4]] * [[5, 6], [7, 8]]. */
  lemma ProductExample()
    ensures Product(New(2, [[1, 2], [3, 4]]), New(2, [[5, 6], [7, 8]])) == Ok(Matrix(2, 2, [19, 22, 43, 50]))
  {
    var a, b := Matrix(2, 2, [1, 2, 3, 4]), Matrix(2, 2, [5, 6, 7, 8]);
    LiteralsFlatten();
    assert Dot(a, b, 0, 0, 2) == 19 by {
      assert Term(a, b, 0, 0, 0) == 5 && Term(a, b, 0, 0, 1) == 14;
    }
    assert Dot(a, b, 0, 1, 2) == 22 by {
      assert Term(a, b, 0, 1, 0) == 6 && Term(a, b, 0, 1, 1) == 16;
    }
    assert Dot(a, b, 1, 0, 2) == 43 by {
      assert Term(a, b, 1, 0, 0) == 15 && Term(a, b, 1, 0, 1) == 28;
    }
    assert Dot(a, b, 1, 1, 2) == 50 by {
      assert Term(a, b, 1, 1, 0) == 18 && Term(a, b, 1, 1, 1) == 32;
    }
    var p := Product(a, b).value;
    assert p.data[0] == 19 by { OffsetDecode(0, 0, 2); }
    assert p.data[1] == 22 by { OffsetDecode(0, 1, 2); }
    assert p.data[2] == 43 by { OffsetDecode(1, 0, 2); }
    assert p.data[3] == 50 by { OffsetDecode(1, 1, 2); }
    assert p.data == [19, 22, 43, 50];
  }

  /** The source's tests of the product's shape and of its dimension check. */
  lemma ProductShapeExamples()
    ensures var p := Product(New(3, [[1, 2, 3], [4, 5, 6]]), New(2, [[7, 8], [9, 10], [11, 12]]));
      p.Ok? && p.value.rows == 2 && p.value.cols == 2
    ensures Product(New(2, [[1, 2], [3, 4]]), New(3, [[5, 6, 7], [8, 9, 10], [11, 12, 13]])) == Err(IncompatibleDimensions)
  {
  }
}
