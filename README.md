# linalg matrix core in Dafny

This project models the dense-matrix core of the Rust crate `linalg` and
proves properties of the model. A `Matrix<T>` keeps `rows * cols` elements
in one flat row-major buffer, so cell `(row, col)` lives at offset
`row * cols + col`. The model covers:

- construction (`new` from a literal, `empty`, the length-checked `from_vec`);
- indexing: `get`, `Index`, and the in-place `get_mut`/`IndexMut`;
- the flat-slice `view` and the `MatrixView` it returns;
- elementwise `+` and `-`, with their dimension checks;
- the size-threshold dispatch of `+` to a vectorised, chunked fill of a fresh buffer;
- the in-place `+=` and `-=`;
- the scalar product and the naive i/j/k matrix product;
- `transpose`;
- the earlier crate-root copies of `Matrix` and `MatrixView`.

Modelling conventions:

- **Element type.** Elements are unbounded integers. The element type's
  default value is 0.
- **Panics.** A panic becomes `Err(e)` of `Errors.Result`. There is one
  `Error` constructor per distinct `assert_eq!` message or slice/index
  failure. A failing `assert_eq!` comes before any other work, so the model
  checks the same conditions in the same order.
- **Values and bindings.** A `Matrix` is a value. A mutable binding
  (`let mut m`) is a `Storage.MutMatrix` object whose `rows`, `cols` and
  `data` fields the in-place operations update.
- **`Valid()`.** Every constructor of the source produces a buffer of
  exactly `rows * cols` elements. Operations therefore take `Valid()`
  matrices, the invariant that the crate's private fields maintain.
- **The vectorised add.** `add_simd` is modelled over an `array<int>`
  allocated with `new int[n]`. Its contents are unconstrained until written,
  like the source's `Vec::with_capacity` + `set_len` buffer. The chunks
  (`par_chunks_mut`) are a sequential loop over disjoint ranges. A ghost
  counter records how often each cell is stored.
- **`view`.** The model follows debug-build semantics: `end - start` on a
  reversed `usize` range panics (`RangeUnderflow`). After that come the slice
  checks, `start <= end` (`SliceStartAfterEnd`) and `end <= len`
  (`IndexOutOfRange`).

Modules:

| file | module | source |
|---|---|---|
| arith.dfy | `Arith` | row-major offset arithmetic |
| errors.dfy | `Errors` | the panics as `Error` / `Result` |
| mat.dfy | `Storage` | src/matrix/mat.rs |
| mat_view.dfy | `Views` | src/matrix/mat_view.rs |
| add.dfy | `Addition` | src/matrix/add.rs |
| sub.dfy | `Subtraction` | src/matrix/sub.rs |
| mul.dfy | `Multiplication` | src/matrix/mul.rs |
| transpose.dfy | `Transposition` | src/matrix/transpose.rs |
| legacy_matrix.dfy | `LegacyMatrix` | src/matrix.rs |
| legacy_view.dfy | `LegacyView` | src/matrix_view.rs |

Where the code and the crate's documented intent part ways, the model
follows the code:

- `MatrixView::new` does not check that the slice holds `rows * cols`
  elements, so a 2 x 3 view over 4 elements is accepted.
- `view` does not reject column ranges narrower than the matrix. It returns
  a slice of the wrong shape instead (see Findings).
- `get`, `Index`, `get_mut` and `IndexMut` (src/matrix/mat.rs:56-62,
  src/matrix/mat.rs:79-90, src/matrix.rs:38-44) check only the flat offset
  against the buffer, never `col < cols`. Column `cols` of row r therefore
  reads cell (r + 1, 0): `get(0, 3)` of [[1,2,3],[4,5,6],[7,8,9]] is 4.
- The only product in the code is the naive triple loop. No Strassen or
  vectorised multiplication exists in these files, and no prefetching
  exists in the vectorised add.

## Model

| member | source | states |
|---|---|---|
| Storage.FlattenAt | src/matrix/mat.rs:20-27 | row-major flattening: literal cell (r, c) lands at offset r * C + c |
| Storage.New | src/matrix/mat.rs:20-27 | `new` on an R x C literal gives rows = R, cols = C, a buffer of R * C elements, and `data[r * C + c] == literal[r][c]` |
| Storage.Empty | src/matrix/mat.rs:29-35 | `empty(rows, cols)` has exactly rows * cols cells, all the default 0 |
| Storage.FromVec | src/matrix/mat.rs:37-44 | `from_vec` fails with the length panic unless the buffer holds rows * cols elements; on success it stores the three fields unchanged |
| Storage.Get | src/matrix/mat.rs:56-58 | `get` returns the element at offset row * cols + col, and panics exactly when that offset is past the buffer |
| Storage.GetWrapsToNextRow | src/matrix/mat.rs:56-58 | `get` checks only the flat offset, so column col + cols of row r reads the same cell as column col of row r + 1 |
| Storage.GetWrapExample | src/matrix/mat.rs:56-58 | `get(0, 3)` of [[1,2,3],[4,5,6],[7,8,9]] succeeds and returns 4, the first cell of the next row |
| Storage.Index | src/matrix/mat.rs:79-81 | `Index` returns exactly what `get` returns, panics included |
| Storage.Write | src/matrix/mat.rs:60-62 | a write through `get_mut` replaces only the element at offset row * cols + col and keeps the dimensions; past the buffer it panics |
| Storage.WriteTouchesOneCell | src/matrix/mat.rs:130-134 | after `m[(r, c)] = x` the cell reads back x, every other cell reads as before, and the matrix stays valid |
| Storage.MutMatrix.IndexMut | src/matrix/mat.rs:88-90 | `IndexMut` on a binding updates it in place to exactly the written matrix, or panics and leaves it untouched |
| Storage.MutMatrix.constructor | src/matrix/mat.rs:6-11 | a mutable binding starts out holding the given matrix |
| Storage.View | src/matrix/mat.rs:46-54 | `view` succeeds exactly when both ranges are ordered and the end offset row_end * cols + col_end is within the buffer; the view's dimensions are the range lengths and its slice runs from the start offset to the end offset |
| Storage.ViewOrigin | src/matrix/mat.rs:137-143 | a non-empty view's cell (0, 0) is m(row_start, col_start) |
| Storage.FullWidthView | src/matrix/mat.rs:47-53 | for the full column range 0..cols, view(i, j) == m(row_start + i, j) |
| Storage.SingleRowView | src/matrix/mat.rs:47-53 | for a single row, view(0, j) == m(row, col_start + j) |
| Storage.StorageExamples | src/matrix/mat.rs:116-143 | the source's construction, index, write and view tests |
| Storage.ViewIsNotARectangle | src/matrix/mat.rs:46-54 | as written, view(0..2, 0..2) of a 3 x 3 matrix reads 3 at (1, 0) where the matrix holds 4, and view(1..3, 0..3) overruns the buffer |
| Storage.SubView | src/matrix/mat.rs:46-54 | the corrected rectangular window succeeds exactly when both ranges are ordered and inside the matrix, with the range lengths as dimensions |
| Storage.SubViewIsRectangle | src/matrix/mat.rs:46-54 | every cell (i, j) of the corrected window is m(row_start + i, col_start + j) |
| Views.New | src/matrix/mat_view.rs:17-19 | `MatrixView::new` stores rows, cols and the slice unchanged and unchecked |
| Views.Get | src/matrix/mat_view.rs:21-23 | `get(r, c)` is the slice element at r * cols + c, and panics exactly when that offset is past the slice |
| Views.Index | src/matrix/mat_view.rs:32-34 | `Index` returns the same element as `get` |
| Views.GetInsideShape | src/matrix/mat_view.rs:21-23 | when the slice really holds rows * cols elements, every in-shape cell is readable |
| Views.EqualityIsStructural | src/matrix/mat_view.rs:3 | derived equality holds exactly when rows, cols and slice contents agree |
| Views.ViewExamples | src/matrix/mat_view.rs:42-83 | the source's view tests: unchecked construction, `get`/`Index` values, equality and inequality |
| Views.GetStrided | src/matrix/mat.rs:46-54 | the corrected window reads offset start + row * stride + col of the parent buffer, failing past its end |
| Addition.AddScalar | src/matrix/add.rs:288-300 | `add_scalar` keeps the dimensions and gives `data[i] == m1.data[i] + m2.data[i]` for every i |
| Addition.Sum | src/matrix/add.rs:270-277 | `+` panics on a row mismatch first, then on a column mismatch, and otherwise returns the pairwise sum |
| Addition.DeclaredLaneSize | src/matrix/add.rs:33-214 | the `LANE_SIZE` each `SimdOps` impl declares (f32 8, f64 8, u32 8, u64 4, i32 8, i64 4, c32 4, c64 2), always positive |
| Addition.RegisterWidth | src/matrix/add.rs:39-257 | the elements one `load`/`store` of each impl moves, 256 bits of data in all (the complex impls spread them over two half-filled real/imaginary registers) |
| Addition.LaneSize | src/matrix/add.rs:56 | the lane size the engine should use: the declared one with f64 corrected to 4, and always positive |
| Addition.LaneSizeFillsRegister | src/matrix/add.rs:30-257 | with the corrected table, one lane step moves exactly the elements one register load/store holds, for every element type |
| Addition.DeclaredLaneSizeMismatch | src/matrix/add.rs:56 | the declared LANE_SIZE matches the register width for every type except f64, where it is twice the width (512 bits, two registers' worth); no declared lane size is narrower than its register |
| Addition.FullLanesStoreEveryCell | src/matrix/add.rs:323-336 | when a lane store moves a whole window, every cell of the buffer is stored by its chunk |
| Addition.F64WindowGap | src/matrix/add.rs:56 | as written, on any f64 matrix of at least 512 x 512 cells, a cell of the first chunk is stored exactly when it lies in the first half (position 0..3) of its 8-cell lane window |
| Addition.LaneAdd | src/matrix/add.rs:325-330 | one lane step stores a[j] + b[j] into exactly `width` cells from the window offset and touches nothing else |
| Addition.LaneLoop | src/matrix/add.rs:323-331 | the lane loop covers [0, (L / LANE_SIZE) * LANE_SIZE) of the chunk, storing each window head once with its sum and touching nothing else |
| Addition.LaneWindow | src/matrix/add.rs:325-330 | one pass of the lane loop at offset i * LANE_SIZE stores the sum into exactly the head cells of window i, counts one store for each, and leaves every other cell and count unchanged |
| Addition.RemainderLoop | src/matrix/add.rs:333-336 | the remainder loop stores each cell from (L / LANE_SIZE) * LANE_SIZE to L exactly once, with its sum |
| Addition.AddChunk | src/matrix/add.rs:322-337 | one chunk writes only inside itself, and each of its cells receives exactly one store when lanes are full width |
| Addition.StoredInChunk | src/matrix/add.rs:318-321 | for a cell j inside chunk k (cells k * LANE_SIZE * 128 onwards), whether j is stored is exactly that chunk's own test over its length, LANE_SIZE * 128 or the shorter remainder of the buffer |
| Addition.AddSimd | src/matrix/add.rs:302-340 | `add_simd` stores every selected cell of the fresh buffer exactly once with the pairwise sum and never writes any other cell; the result has the operands' dimensions |
| Addition.AddMatrixImplAsWritten | src/matrix/add.rs:259-286 | `add_matrix_impl` with the declared lane table: same panics and same dispatch; for every type but f64, or off the vectorised path, the pairwise sum; for f64 on the vectorised path, the cells `Stored` selects are written once each with their sum, every other cell is never written and keeps the fresh buffer's contents, and in the first chunk those unwritten cells are exactly positions 4..7 of every lane window |
| Addition.AddMatrixImpl | src/matrix/add.rs:259-286 | with the corrected lane table (f64 → 4): after the dimension checks, the vectorised path runs exactly when rows * cols >= 512 * 512 and the hardware probe answers yes; either path returns the pairwise sum |
| Addition.AddAssignScalar | src/matrix/add.rs:368-376 | `add_assign_scalar` adds m2 into m1's buffer in place over the zipped length and keeps the dimensions |
| Addition.AddAssignMatrixImpl | src/matrix/add.rs:342-366 | after the dimension checks m1 holds exactly m1 + m2; on a mismatch it panics and m1 is unchanged |
| Addition.AddAssign | src/matrix/add.rs:426-437 | `m1 += m2` leaves m1 equal to what `m1 + m2` returns, with the same panics |
| Addition.SumCommutes | src/matrix/add.rs:378-412 | A + B == B + A, including which panic a mismatch raises |
| Addition.SumAssociates | src/matrix/add.rs:288-300 | (A + B) + C == A + (B + C) for matrices of one shape |
| Addition.SumWithEmpty | src/matrix/add.rs:288-300 | the default-filled matrix is a left and a right identity of `+` |
| Addition.SumExample | src/matrix/add.rs:445-454 | [[1,2,3],[4,5,6],[7,8,9]] + I is 3 x 3 with diagonal 2, 6, 10 |
| Addition.AddAssignExample | src/matrix/add.rs:482-491 | after A += I on a binding of [[1,2,3],[4,5,6],[7,8,9]], the binding holds a 3 x 3 matrix with diagonal 2, 6, 10 |
| Subtraction.SubMatrixImpl | src/matrix/sub.rs:4-25 | `-` panics on a row mismatch first, then on a column mismatch, and otherwise returns m1's dimensions with `data[i] == m1.data[i] - m2.data[i]` |
| Subtraction.SubAssign | src/matrix/sub.rs:53-67 | `m1 -= m2` mutates m1 in place to exactly what `m1 - m2` returns, with the same panics, leaving m1 unchanged on a panic |
| Subtraction.SubUndoesSum | src/matrix/sub.rs:17-24 | (A + B) - B == A |
| Subtraction.SumUndoesSub | src/matrix/sub.rs:17-24 | (A - B) + B == A |
| Subtraction.SubSelfIsEmpty | src/matrix/sub.rs:17-24 | A - A is the default-filled matrix of A's shape |
| Subtraction.SubExample | src/matrix/sub.rs:74-96 | [[1,2,3],[4,5,6],[7,8,9]] - I is 3 x 3 with diagonal 0, 4, 8 |
| Subtraction.SubExampleReversedRows | src/matrix/mat.rs:146-155 | [[3,2,1],[6,5,4],[9,8,7]] - I is 3 x 3 with diagonal 2, 4, 6 |
| Subtraction.SubAssignExample | src/matrix/sub.rs:99-108 | A -= I on a binding of [[1,2,3],[4,5,6],[7,8,9]] leaves a 3 x 3 matrix with diagonal 0, 4, 8; the same on [[3,2,1],[6,5,4],[9,8,7]] (src/matrix/mat.rs:158-167) leaves diagonal 2, 4, 6 |
| Multiplication.Product | src/matrix/mul.rs:8-12 | the product fails with "Incompatible matrix dimensions" exactly when lhs.cols != rhs.rows, and otherwise is a valid lhs.rows x rhs.cols matrix |
| Multiplication.ProductAt | src/matrix/mul.rs:14-20 | product cell (i, j) is the sum over k < lhs.cols of lhs(i, k) * rhs(k, j) |
| Multiplication.MultiplyMatrices | src/matrix/mul.rs:4-23 | `multiply_matrices` returns exactly the mathematical product, or the dimension panic |
| Multiplication.FillRow | src/matrix/mul.rs:15-19 | loop invariant of the j loop: cells before (i, j) in row-major order hold their final sums, and cells from (i, j) on still hold the default |
| Multiplication.AccumulateCell | src/matrix/mul.rs:16-18 | the k loop adds the full dot product into cell (i, j) and touches no other cell |
| Multiplication.AllFilledIsProduct | src/matrix/mul.rs:14-22 | once every row is filled, the buffer is the product's |
| Multiplication.MulScalar | src/matrix/mul.rs:25-38 | `m * x` keeps the dimensions and maps every element e to e * x |
| Multiplication.MulScalarRef | src/matrix/mul.rs:40-49 | `m * &x` equals `m * x` |
| Multiplication.MulScalarComposes | src/matrix/mul.rs:25-38 | (m * a) * b == m * (a * b) |
| Multiplication.MulScalarDistributesOverSum | src/matrix/mul.rs:25-38 | (A + B) * x == A * x + B * x |
| Multiplication.TermScalesLeft | src/matrix/mul.rs:17 | scaling lhs scales each summand lhs(i, k) * rhs(k, j) |
| Multiplication.DotScalesLeft | src/matrix/mul.rs:16-18 | scaling lhs scales every partial dot product |
| Multiplication.ProductOfScaled | src/matrix/mul.rs:25-38 | (A * x) * B == (A * B) * x |
| Multiplication.TermDistributes | src/matrix/mul.rs:17 | each summand against B + C is the sum of the summands against B and against C |
| Multiplication.DotDistributes | src/matrix/mul.rs:16-18 | each partial dot product against B + C is the sum of those against B and against C |
| Multiplication.ProductDistributes | src/matrix/mul.rs:4-23 | A * (B + C) == A * B + A * C |
| Multiplication.PeelColumn | src/matrix/mul.rs:16-18 | a double sum over a column bound k + 1 is the sum over k plus the sums of the last column |
| Multiplication.ExchangeSums | src/matrix/mul.rs:16-18 | the double sum of a(i, p) * b(p, q) * c(q, l) over p then q equals the sum over q then p |
| Multiplication.DotTimesCell | src/matrix/mul.rs:16-18 | a partial dot product of A * B at (i, q), times c(q, l), is the inner sum over p of the triple products |
| Multiplication.CellTimesDot | src/matrix/mul.rs:16-18 | a(i, p) times a partial dot product of B * C at (p, l) is the inner sum over q of the triple products |
| Multiplication.DotOfLeftProduct | src/matrix/mul.rs:14-20 | a partial dot product of (A * B) * C at (i, l) is the double sum over q then p |
| Multiplication.DotOfRightProduct | src/matrix/mul.rs:14-20 | a partial dot product of A * (B * C) at (i, l) is the double sum over p then q |
| Multiplication.CellAssociates | src/matrix/mul.rs:14-20 | cell q of (A * B) * C equals cell q of A * (B * C) |
| Multiplication.ProductAssociates | src/matrix/mul.rs:4-23 | (A * B) * C == A * (B * C) for chained dimensions, both products defined |
| Multiplication.MulScalarExamples | src/matrix/mul.rs:99-112 | [[1,2],[3,4]] * 2 has data [2, 4, 6, 8]; a 3 x 2 matrix times 3 stays 3 x 2 |
| Multiplication.ProductExample | src/matrix/mul.rs:121-127 | [[1,2],[3,4]] * [[5,6],[7,8]] has data [19, 22, 43, 50] |
| Multiplication.ProductShapeExamples | src/matrix/mul.rs:129-144 | a 2 x 3 by 3 x 2 product is 2 x 2; a 2 x 2 by 3 x 3 product panics |
| Transposition.Transposed | src/matrix/transpose.rs:17-21 | the transpose is valid and has rows = source cols and cols = source rows |
| Transposition.TransposedAt | src/matrix/transpose.rs:11-15 | cell (c, r) of the transpose, at offset c * rows + r, is source cell (r, c), at offset r * cols + c |
| Transposition.TransposeInvolutive | src/matrix/transpose.rs:8-22 | transposing twice gives back the original matrix |
| Transposition.Transpose | src/matrix/transpose.rs:8-22 | the nested push loops build exactly the transpose |
| Transposition.PushColumn | src/matrix/transpose.rs:12-14 | loop invariant: after column c, c * rows elements have been pushed, each equal to the transpose's element at its position |
| Transposition.PushedCell | src/matrix/transpose.rs:13 | the element pushed at step (col, row) is the one the transpose places at position col * rows + row |
| Transposition.TransposeOfSum | src/matrix/transpose.rs:8-22 | (A + B)^T == A^T + B^T |
| Transposition.TermOfTransposes | src/matrix/transpose.rs:11-15 | summand p of cell (i, j) of A * B equals summand p of cell (j, i) of B^T * A^T |
| Transposition.DotOfTransposes | src/matrix/transpose.rs:11-15 | every partial dot product of A * B at (i, j) equals that of B^T * A^T at (j, i) |
| Transposition.TransposeOfProduct | src/matrix/transpose.rs:8-22 | (A * B)^T == B^T * A^T |
| Transposition.TransposeOfRow | src/matrix/transpose.rs:8-22 | a 1 x n matrix transposes into the n x 1 matrix over the same buffer |
| Transposition.TransposeOf2x2 | src/matrix/transpose.rs:8-22 | a 2 x 2 matrix [a, b, c, d] transposes into [a, c, b, d] |
| Transposition.TransposeOf3x2 | src/matrix/transpose.rs:8-22 | a 3 x 2 matrix [a, b, c, d, e, f] transposes into the 2 x 3 matrix [a, c, e, b, d, f] |
| Transposition.TransposeExamples | src/matrix/transpose.rs:27-59 | the 3 x 2, 2 x 2 and 1 x 3 examples transpose to [1,3,5,2,4,6], [1,3,2,4] and [1,2,3] with swapped dimensions |
| LegacyView.New | src/matrix_view.rs:17-19 | the earlier `MatrixView::new` keeps rows, cols and the slice exactly as given, unchecked |
| LegacyView.Get | src/matrix_view.rs:21-23 | `get(r, c)` is the slice element at r * cols + c, and panics exactly when that offset is past the slice |
| LegacyView.Index | src/matrix_view.rs:32-34 | `Index` delegates to `get` |
| LegacyView.GetAgreesWithModern | src/matrix_view.rs:21-34 | the earlier view reads and fails exactly like the current one |
| LegacyView.LegacyViewExample | src/matrix_view.rs:42-48 | a 2 x 3 view over 4 elements is accepted unchanged |
| LegacyMatrix.New | src/matrix.rs:19-26 | the earlier `new` flattens row-major with rows = R and cols = C, and agrees with the current `new` |
| LegacyMatrix.View | src/matrix.rs:28-36 | the earlier `view` has the range lengths as dimensions and the slice from row_start * cols + col_start to row_end * cols + col_end, failing on the same ranges |
| LegacyMatrix.ViewAgreesWithModern | src/matrix.rs:28-36 | the earlier `view` cuts the same slice as the current one and fails with the same panic |
| LegacyMatrix.Get | src/matrix.rs:38-40 | the earlier `get` reads offset row * cols + col and panics past the buffer |
| LegacyMatrix.Index | src/matrix.rs:53-55 | `Index` delegates to `get` |
| LegacyMatrix.GetAgreesWithModern | src/matrix.rs:38-40 | the earlier `get` reads exactly like the current one |
| LegacyMatrix.MutMatrix.IndexMut | src/matrix.rs:42-44 | the earlier `IndexMut`/`get_mut` changes only cell row * cols + col and keeps the dimensions, or panics and changes nothing |
| LegacyMatrix.MutMatrix.constructor | src/matrix.rs:5-13 | a mutable binding starts out holding the given matrix |
| LegacyMatrix.Add | src/matrix.rs:67-96 | the earlier `+` panics on a row mismatch, then a column mismatch, and otherwise returns the same dimensions with elementwise sums |
| LegacyMatrix.AddAgreesWithModern | src/matrix.rs:67-96 | the earlier `+` equals the current `+`, panics included |
| LegacyMatrix.MutMatrix.AddAssign | src/matrix.rs:98-117 | the earlier `+=` adds in place, keeps the dimensions, leaves the binding equal to `+`'s result, and changes nothing on a mismatch |
| LegacyMatrix.LegacyExamples | src/matrix.rs:123-174 | the earlier module's construction, index, view and `+` tests |
| LegacyMatrix.LegacyMutationExample | src/matrix.rs:137-141 | through the earlier `IndexMut`, `m[(0, 0)] = 10` reads back 10; the earlier `+=` of I into [[1,2,3],[4,5,6],[7,8,9]] (src/matrix.rs:165-174) leaves a 3 x 3 matrix with diagonal 2, 6, 10 |

## Left out

- src/matrix/simd.rs is not part of this model. It holds AVX2 intrinsics
  behind raw pointers and floating-point horizontal sums.
- The `SimdOps` impls (src/matrix/add.rs:12-257) are not modelled
  instruction by instruction. Each type is reduced to its declared
  `LANE_SIZE` and its register width (`DeclaredLaneSize`, `RegisterWidth`).
  The load/add/store of one lane is the step `LaneAdd`, which stores
  `width` consecutive sums.
- `has_simd_support` is a runtime CPU-feature probe. It is the boolean
  parameter `hasSimdSupport` of `AddMatrixImpl`.
- Rayon parallelism (`par_chunks_mut`) is modelled as a sequential loop over
  the disjoint chunks. The chunks share no cell, so the order does not
  matter, but concurrency itself is not modelled.
- `Display` (src/matrix/mat.rs:93-110) is formatting through the element
  type's own formatter.
- Float and complex element types are left out, including the float
  scalar-product test (src/matrix/mul.rs:115-119) and the large c32/c64
  addition tests. Elements are integers.
- Fixed-width integer overflow is left out. It is the element type's own
  semantics: a panic in debug builds, wrap-around in release builds.
- `rows()` / `cols()` (src/matrix/mat.rs:64-70) are the datatype's
  `rows` and `cols` fields.
- `get_mut` returns a mutable reference. The model has no references: the
  one thing a caller can do with it, overwrite the cell, is `Storage.Write`
  on values and `MutMatrix.IndexMut` on bindings.
- The owned and borrowed operator impls are not separate members:
  - both `Add` impls call `add_matrix_impl` (`Addition.AddMatrixImpl`);
  - both `Sub` impls call `sub_matrix_impl` (`Subtraction.SubMatrixImpl`);
  - all four matrix `Mul` impls call `multiply_matrices`
    (`Multiplication.MultiplyMatrices`).

  With value semantics these variants are the same function, and borrowing
  changes nothing the model can observe.
- `Addition.AddAssignScalar` states the zip over the shorter of the two
  buffers, as the source does. It does not promise `m1 + m2` on its own,
  because the dimension checks happen in its callers.
- Lifetimes (a view must not outlive its matrix) are not modelled: a view
  holds a copy of its slice.
- tests/benchmarks.rs is a benchmark harness.
- tests/matrix_tests.rs is covered only through `Storage.StorageExamples`,
  which states the same view test.

## Findings

| source | as written | input that shows it | evidently intended | confidence | as-written member | corrected member |
|---|---|---|---|---|---|---|
| src/matrix/add.rs:56 | the f64 impl declares `LANE_SIZE = 8`, but its `__m256d` load/store moves 4 doubles, so the lane loop steps 8 cells and stores only the first 4 of each window | any f64 matrix of at least 512 x 512 cells on an AVX2 machine: cells 4..7 of every window keep the uninitialised buffer's contents | `LANE_SIZE = 4` for f64, so every cell is stored exactly once with its sum | not executed | Addition.AddMatrixImplAsWritten | Addition.AddMatrixImpl |
| src/matrix/mat.rs:46-54 | `view` slices the flat buffer from `row_start * cols + col_start` to `row_end * cols + col_end` | `view(0..2, 0..2)` of [[1,2,3],[4,5,6],[7,8,9]] reads 3 at (1, 0), where the matrix holds 4; `view(1..3, 0..3)` panics | a rectangular window that keeps the parent's row stride and the offset of its first cell | not executed | Storage.ViewIsNotARectangle | Storage.SubViewIsRectangle |
