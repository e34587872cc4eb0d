/**
 * The elementwise addition engine: `+` with its size-threshold dispatch
 * between a scalar zip-and-sum and a vectorised fill of a fresh buffer, and
 * `+=`, which adds into the left matrix's buffer in place.
 *
 * The vectorised path is modelled by its index structure only: the buffer is
 * cut into chunks of LANE_SIZE * 128 cells; inside a chunk a lane loop adds
 * whole lane windows and a scalar loop adds what is left. The hardware lane
 * add is the step `LaneAdd`, which loads, adds and stores the number of
 * elements one 256-bit register really holds.
 */
module Addition {
  import opened Errors
  import opened Arith
  import opened Storage

  /** Minimum number of elements for the vectorised path. */
  const SIMD_THRESHOLD: nat := 512 * 512

  /** How many lane windows make up one parallel chunk. */
  const LANES_PER_CHUNK: nat := 128

  /** `add_scalar`: zip the two buffers, add pairwise, wrap with `from_vec`. */
  function AddScalar(m1: Matrix, m2: Matrix): (r: Matrix)
    requires m1.Valid() && m2.Valid() && m1.rows == m2.rows && m1.cols == m2.cols
    ensures r.Valid() && r.rows == m1.rows && r.cols == m1.cols
    ensures forall i :: 0 <= i < |r.data| ==> r.data[i] == m1.data[i] + m2.data[i]
  {
    var data := seq(|m1.data|, i requires 0 <= i < |m1.data| => m1.data[i] + m2.data[i]);
    FromVec(m1.rows, m1.cols, data).value
  }

  /**
   * What `m1 + m2` (owned or by reference) returns: a panic when the row
   * counts differ, then when the column counts differ, else the pairwise sum.
   */
  function Sum(m1: Matrix, m2: Matrix): (r: Result<Matrix>)
    requires m1.Valid() && m2.Valid()
    ensures r.Ok? <==> m1.rows == m2.rows && m1.cols == m2.cols
    ensures m1.rows != m2.rows ==> r == Err(RowsMismatch)
    ensures m1.rows == m2.rows && m1.cols != m2.cols ==> r == Err(ColsMismatch)
    ensures r.Ok? ==> r.value.Valid() && r.value.rows == m1.rows && r.value.cols == m1.cols
    ensures r.Ok? ==> forall i :: 0 <= i < |r.value.data| ==> r.value.data[i] == m1.data[i] + m2.data[i]
  {
    if m1.rows != m2.rows then Err(RowsMismatch)
    else if m1.cols != m2.cols then Err(ColsMismatch)
    else Ok(AddScalar(m1, m2))
  }

  // ---------------------------------------------------------------------
  // Lane widths
  // ---------------------------------------------------------------------

  /** The element types with a vector-lane implementation. */
  datatype ElemType = F32 | F64 | U32 | U64 | I32 | I64 | C32 | C64

  /** The bits of one register of the vector unit (`__m256`, `__m256d`, `__m256i`). */
  const REGISTER_BITS: nat := 256

  /** The bits one element occupies; a complex number is a real and an imaginary part. */
  function ElemBits(t: ElemType): nat
  {
    match t
    case F32 => 32
    case F64 => 64
    case U32 => 32
    case U64 => 64
    case I32 => 32
    case I64 => 64
    case C32 => 64
    case C64 => 128
  }

  /** `LANE_SIZE` exactly as each `SimdOps` impl of the elementwise engine declares it. */
  function DeclaredLaneSize(t: ElemType): (n: nat)
    ensures n > 0
  {
    match t
    case F32 => 8
    case F64 => 8
    case U32 => 8
    case U64 => 4
    case I32 => 8
    case I64 => 4
    case C32 => 4
    case C64 => 2
  }

  /**
   * How many elements one `load` / `store` of the impl really moves: a
   * 256-bit register holds 8 values of 32 bits or 4 of 64 bits; the complex
   * impls copy 4 (c32) or 2 (c64) numbers into paired real/imaginary lanes.
   */
  function RegisterWidth(t: ElemType): (w: nat)
    ensures w * ElemBits(t) == REGISTER_BITS
  {
    match t
    case F32 => 8
    case F64 => 4
    case U32 => 8
    case U64 => 4
    case I32 => 8
    case I64 => 4
    case C32 => 4
    case C64 => 2
  }

  /**
   * The lane size the engine should use: the corrected lane table, equal to
   * the declared one except for f64, which is corrected from 8 to 4.
   */
  function LaneSize(t: ElemType): (n: nat)
    ensures n > 0
  {
    match t
    case F64 => 4
    case _ => DeclaredLaneSize(t)
  }

  /** The corrected lane size is exactly what one register moves, for every type. */
  lemma LaneSizeFillsRegister(t: ElemType)
    ensures LaneSize(t) == RegisterWidth(t)
  {
  }

  /** The declared lane size disagrees with the register width for f64 and for no other type. */
  lemma DeclaredLaneSizeMismatch(t: ElemType)
    ensures DeclaredLaneSize(t) == RegisterWidth(t) <==> t != F64
    ensures 0 < RegisterWidth(t) <= DeclaredLaneSize(t)
    ensures DeclaredLaneSize(F64) == 2 * RegisterWidth(F64)
    ensures DeclaredLaneSize(F64) * ElemBits(F64) == 2 * REGISTER_BITS
  {
  }

  // ---------------------------------------------------------------------
  // Which cells the vectorised path stores
  // ---------------------------------------------------------------------

  /** Cell j, in a chunk starting at `start`, is among the first `width` cells of its lane window. */
  predicate HeadOfWindow(j: int, start: int, laneSize: nat, width: nat)
    requires laneSize > 0
  {
    (j - start) % laneSize < width
  }

  /**
   * Cell j of the chunk of `len` cells at `start` is stored either by the
   * scalar remainder loop (it lies at or past the last whole lane window) or
   * by the lane store of its window (it is at the head of its window).
   */
  predicate ChunkStored(len: int, start: int, laneSize: nat, width: nat, j: int)
    requires laneSize > 0
  {
    j - start >= (len / laneSize) * laneSize || HeadOfWindow(j, start, laneSize, width)
  }

  /** Cell j of an n-cell buffer cut into chunks of laneSize * 128 cells is stored by its chunk. */
  predicate Stored(n: nat, laneSize: nat, width: nat, j: nat)
    requires laneSize > 0
  {
    var c := laneSize * LANES_PER_CHUNK;
    var start := (j / c) * c;
    ChunkStored(Min(c, n - start), start, laneSize, width, j)
  }

  /** When one store moves a whole lane window, every cell is stored. */
  lemma FullLanesStoreEveryCell(n: nat, laneSize: nat, j: nat)
    requires laneSize > 0
    ensures Stored(n, laneSize, laneSize, j)
  {
  }

  /**
   * With the declared f64 lane size the lane loop steps 8 cells at a time
   * but stores 4: on any f64 matrix large enough for the vectorised path,
   * throughout the first chunk exactly the first half of every window is
   * stored, so cells 4..7, 12..15, ... are never written.
   */
  lemma F64WindowGap(n: nat)
    requires n >= SIMD_THRESHOLD
    ensures forall j :: 0 <= j < DeclaredLaneSize(F64) * LANES_PER_CHUNK ==>
      (Stored(n, DeclaredLaneSize(F64), RegisterWidth(F64), j) <==> j % 8 < 4)
  {
    forall j | 0 <= j < DeclaredLaneSize(F64) * LANES_PER_CHUNK
      ensures Stored(n, DeclaredLaneSize(F64), RegisterWidth(F64), j) <==> j % 8 < 4
    {
      assert j / 1024 == 0;
    }
  }

  /** Chunk k covers cells k * c .. min((k + 1) * c, n): the chunk's own test decides `Stored`. */
  lemma StoredInChunk(n: nat, laneSize: nat, width: nat, k: nat, start: nat, j: nat)
    requires laneSize > 0
    requires start == k * (laneSize * LANES_PER_CHUNK)
    requires start <= j < start + laneSize * LANES_PER_CHUNK
    ensures Stored(n, laneSize, width, j)
        == ChunkStored(Min(laneSize * LANES_PER_CHUNK, n - start), start, laneSize, width, j)
  {
    DivInWindow(j, k, laneSize * LANES_PER_CHUNK);
  }

  /** Inside window i (cells offset .. offset + laneSize of the chunk), the head test is a plain comparison. */
  lemma HeadOfWindowAt(j: int, start: int, i: nat, offset: nat, laneSize: nat, width: nat)
    requires laneSize > 0 && offset == i * laneSize
    requires start + offset <= j < start + offset + laneSize
    ensures HeadOfWindow(j, start, laneSize, width) <==> j - start - offset < width
  {
    DivInWindow(j - start, i, laneSize);
  }

  // ---------------------------------------------------------------------
  // The vectorised path
  // ---------------------------------------------------------------------

  /** Count one more write for every cell in lo..hi. */
  ghost function Bump(writes: seq<nat>, lo: int, hi: int): (w: seq<nat>)
    ensures |w| == |writes|
    ensures forall j :: 0 <= j < |w| ==> w[j] == if lo <= j < hi then writes[j] + 1 else writes[j]
  {
    seq(|writes|, j requires 0 <= j < |writes| => if lo <= j < hi then writes[j] + 1 else writes[j])
  }

  /** One lane step: load `width` cells of both operands at `at`, add them, store them into `r`. */
  method LaneAdd(r: array<int>, a: seq<int>, b: seq<int>, at: nat, width: nat)
    requires r.Length == |a| == |b| && at + width <= r.Length
    modifies r
    ensures forall j :: 0 <= j < r.Length ==>
      r[j] == if at <= j < at + width then a[j] + b[j] else old(r[j])
  {
    forall j | at <= j < at + width {
      r[j] := a[j] + b[j];
    }
  }

  /** Cell j lies in the first `upto` cells of the chunk at `start` and at the head of its window. */
  predicate LaneStored(j: int, start: int, upto: int, laneSize: nat, width: nat)
    requires laneSize > 0
  {
    start <= j < start + upto && HeadOfWindow(j, start, laneSize, width)
  }

  /**
   * The lane loop of one chunk: for each whole window i, one `LaneAdd` at
   * offset i * laneSize. It touches only the windows' heads.
   */
  method LaneLoop(r: array<int>, a: seq<int>, b: seq<int>, start: nat, len: nat,
                  laneSize: nat, width: nat, ghost writesIn: seq<nat>)
    returns (ghost writes: seq<nat>)
    requires r.Length == |a| == |b| == |writesIn| && start + len <= r.Length
    requires 0 < width <= laneSize
    modifies r
    ensures |writes| == |writesIn|
    ensures forall j :: 0 <= j < r.Length ==>
      var stored := LaneStored(j, start, (len / laneSize) * laneSize, laneSize, width);
      && writes[j] == writesIn[j] + (if stored then 1 else 0)
      && r[j] == if stored then a[j] + b[j] else old(r[j])
  {
    writes := writesIn;
    var chunks := len / laneSize;
    for i := 0 to chunks
      invariant i * laneSize <= chunks * laneSize
      invariant |writes| == |writesIn|
      invariant forall j :: 0 <= j < r.Length ==>
        var stored := LaneStored(j, start, i * laneSize, laneSize, width);
        && writes[j] == writesIn[j] + (if stored then 1 else 0)
        && r[j] == if stored then a[j] + b[j] else old(r[j])
    {
      var offset := i * laneSize;
      NextWindow(i, chunks, laneSize);
      writes := LaneWindow(r, a, b, start, i, offset, laneSize, width, writes);
    }
  }

  /** Window i of the lane loop: its head cells are summed and counted, nothing else changes. */
  method LaneWindow(r: array<int>, a: seq<int>, b: seq<int>, start: nat, i: nat, offset: nat,
                    laneSize: nat, width: nat, ghost writesIn: seq<nat>)
    returns (ghost writes: seq<nat>)
    requires r.Length == |a| == |b| == |writesIn| && start + offset + laneSize <= r.Length
    requires 0 < width <= laneSize && offset == i * laneSize
    modifies r
    ensures |writes| == |writesIn|
    ensures forall j :: 0 <= j < r.Length ==>
      var head := start + offset <= j < start + offset + laneSize && HeadOfWindow(j, start, laneSize, width);
      && writes[j] == writesIn[j] + (if head then 1 else 0)
      && r[j] == if head then a[j] + b[j] else old(r[j])
  {
    LaneAdd(r, a, b, start + offset, width);
    writes := Bump(writesIn, start + offset, start + offset + width);
    forall j | start + offset <= j < start + offset + laneSize
      ensures HeadOfWindow(j, start, laneSize, width) <==> j - start - offset < width
    {
      HeadOfWindowAt(j, start, i, offset, laneSize, width);
    }
  }

  /**
   * The work of one parallel task: the lane loop over the whole windows of
   * the chunk at `start`, then the scalar loop over the remainder. It writes
   * only inside the chunk; `writes` counts the stores each cell receives.
   */
  method AddChunk(r: array<int>, a: seq<int>, b: seq<int>, start: nat, len: nat,
                  laneSize: nat, width: nat, ghost writesIn: seq<nat>)
    returns (ghost writes: seq<nat>)
    requires r.Length == |a| == |b| == |writesIn| && start + len <= r.Length
    requires 0 < width <= laneSize
    modifies r
    ensures |writes| == |writesIn|
    ensures forall j :: 0 <= j < r.Length && !(start <= j < start + len) ==>
      writes[j] == writesIn[j] && r[j] == old(r[j])
    ensures forall j :: start <= j < start + len ==>
      writes[j] == writesIn[j] + (if ChunkStored(len, start, laneSize, width, j) then 1 else 0)
    ensures forall j :: start <= j < start + len && ChunkStored(len, start, laneSize, width, j) ==>
      r[j] == a[j] + b[j]
  {
    var remainingStart := (len / laneSize) * laneSize;
    writes := LaneLoop(r, a, b, start, len, laneSize, width, writesIn);
    writes := RemainderLoop(r, a, b, start, remainingStart, len, writes);
  }

  /** The scalar loop over the cells of the chunk past its last whole lane window. */
  method RemainderLoop(r: array<int>, a: seq<int>, b: seq<int>, start: nat, from: nat, len: nat,
                       ghost writesIn: seq<nat>)
    returns (ghost writes: seq<nat>)
    requires r.Length == |a| == |b| == |writesIn| && from <= len && start + len <= r.Length
    modifies r
    ensures |writes| == |writesIn|
    ensures forall j :: 0 <= j < r.Length && !(start + from <= j < start + len) ==>
      writes[j] == writesIn[j] && r[j] == old(r[j])
    ensures forall j :: start + from <= j < start + len ==>
      writes[j] == writesIn[j] + 1 && r[j] == a[j] + b[j]
  {
    writes := writesIn;
    for p := from to len
      invariant |writes| == |writesIn|
      invariant forall j :: 0 <= j < r.Length && !(start + from <= j < start + p) ==>
        writes[j] == writesIn[j] && r[j] == old(r[j])
      invariant forall j :: start + from <= j < start + p ==>
        writes[j] == writesIn[j] + 1 && r[j] == a[j] + b[j]
    {
      r[start + p] := a[start + p] + b[start + p];
      writes := writes[start + p := writes[start + p] + 1];
    }
  }

  /**
   * `add_simd`: fill a fresh, uninitialised buffer chunk by chunk. A cell
   * that `Stored` selects is written exactly once and holds the pairwise
   * sum; every other cell is never written (it keeps whatever the
   * allocation left there).
   */
  method AddSimd(m1: Matrix, m2: Matrix, laneSize: nat, width: nat)
    returns (r: Matrix, ghost writes: seq<nat>)
    requires m1.Valid() && m2.Valid() && m1.rows == m2.rows && m1.cols == m2.cols
    requires 0 < width <= laneSize
    ensures r.Valid() && r.rows == m1.rows && r.cols == m1.cols
    ensures |writes| == |r.data|
    ensures forall j :: 0 <= j < |r.data| ==>
      writes[j] == if Stored(|r.data|, laneSize, width, j) then 1 else 0
    ensures forall j :: 0 <= j < |r.data| && Stored(|r.data|, laneSize, width, j) ==>
      r.data[j] == m1.data[j] + m2.data[j]
  {
    var n := m1.rows * m1.cols;
    var result := new int[n];
    writes := seq(n, _ => 0);
    var c := laneSize * LANES_PER_CHUNK;
    var start := 0;
    ghost var k := 0;
    while start < n
      invariant 0 <= start <= n && (start < n ==> start == k * c)
      invariant |writes| == n
      invariant forall j :: 0 <= j < start ==>
        writes[j] == if Stored(n, laneSize, width, j) then 1 else 0
      invariant forall j :: 0 <= j < start && Stored(n, laneSize, width, j) ==>
        result[j] == m1.data[j] + m2.data[j]
      invariant forall j :: start <= j < n ==> writes[j] == 0
      decreases n - start
    {
      var len := Min(c, n - start);
      writes := AddChunk(result, m1.data, m2.data, start, len, laneSize, width, writes);
      forall j | start <= j < start + len
        ensures Stored(n, laneSize, width, j) == ChunkStored(len, start, laneSize, width, j)
      {
        StoredInChunk(n, laneSize, width, k, start, j);
      }
      assert (k + 1) * c == k * c + c;
      start, k := start + len, k + 1;
    }
    r := FromVec(m1.rows, m1.cols, result[..]).value;
  }

  /**
   * `add_matrix_impl` as written: check the dimensions, then take the
   * vectorised path exactly when the matrix has at least SIMD_THRESHOLD
   * cells and the hardware probe answers yes, with the declared `LANE_SIZE`
   * of the element type. For every type but f64 this returns the pairwise
   * sum; for f64 only half of each lane window of the first chunk is ever
   * written, and `writes` shows which cells.
   */
  method AddMatrixImplAsWritten(m1: Matrix, m2: Matrix, t: ElemType, hasSimdSupport: bool)
    returns (r: Result<Matrix>, vectorised: bool, ghost writes: seq<nat>)
    requires m1.Valid() && m2.Valid()
    ensures r.Err? <==> Sum(m1, m2).Err?
    ensures r.Err? ==> r == Sum(m1, m2)
    ensures vectorised <==> r.Ok? && m1.rows * m1.cols >= SIMD_THRESHOLD && hasSimdSupport
    ensures t != F64 || !vectorised ==> r == Sum(m1, m2)
    ensures vectorised ==>
      && r.value.Valid() && r.value.rows == m1.rows && r.value.cols == m1.cols
      && |writes| == |r.value.data|
      && (forall j :: 0 <= j < |writes| ==>
            writes[j] == if Stored(|writes|, DeclaredLaneSize(t), RegisterWidth(t), j) then 1 else 0)
      && (forall j :: 0 <= j < |writes| && Stored(|writes|, DeclaredLaneSize(t), RegisterWidth(t), j) ==>
            r.value.data[j] == m1.data[j] + m2.data[j])
    ensures vectorised && t == F64 ==>
      forall j :: 0 <= j < DeclaredLaneSize(F64) * LANES_PER_CHUNK ==> (writes[j] == 0 <==> j % 8 >= 4)
  {
    writes := [];
    if m1.rows != m2.rows {
      return Err(RowsMismatch), false, writes;
    }
    if m1.cols != m2.cols {
      return Err(ColsMismatch), false, writes;
    }
    var total := m1.rows * m1.cols;
    if total >= SIMD_THRESHOLD && hasSimdSupport {
      DeclaredLaneSizeMismatch(t);
      var sum, w := AddSimd(m1, m2, DeclaredLaneSize(t), RegisterWidth(t));
      writes := w;
      if t != F64 {
        forall j | 0 <= j < |sum.data| ensures sum.data[j] == AddScalar(m1, m2).data[j] {
          FullLanesStoreEveryCell(|sum.data|, DeclaredLaneSize(t), j);
        }
        assert sum.data == AddScalar(m1, m2).data;
      } else {
        F64WindowGap(|sum.data|);
      }
      r, vectorised := Ok(sum), true;
    } else {
      r, vectorised := Ok(AddScalar(m1, m2)), false;
    }
  }

  /**
   * `add_matrix_impl`, which both `Add` impls call, with the corrected lane
   * table (f64 lanes of 4): check the dimensions, then take the vectorised
   * path exactly when the matrix has at least SIMD_THRESHOLD cells and the
   * hardware probe answers yes. Either path returns the pairwise sum.
   */
  method AddMatrixImpl(m1: Matrix, m2: Matrix, t: ElemType, hasSimdSupport: bool)
    returns (r: Result<Matrix>, vectorised: bool)
    requires m1.Valid() && m2.Valid()
    ensures r == Sum(m1, m2)
    ensures vectorised <==> r.Ok? && m1.rows * m1.cols >= SIMD_THRESHOLD && hasSimdSupport
  {
    if m1.rows != m2.rows {
      return Err(RowsMismatch), false;
    }
    if m1.cols != m2.cols {
      return Err(ColsMismatch), false;
    }
    var total := m1.rows * m1.cols;
    if total >= SIMD_THRESHOLD && hasSimdSupport {
      LaneSizeFillsRegister(t);
      var sum, writes := AddSimd(m1, m2, LaneSize(t), RegisterWidth(t));
      forall j | 0 <= j < |sum.data| ensures sum.data[j] == AddScalar(m1, m2).data[j] {
        FullLanesStoreEveryCell(|sum.data|, LaneSize(t), j);
      }
      assert sum.data == AddScalar(m1, m2).data;
      r, vectorised := Ok(sum), true;
    } else {
      r, vectorised := Ok(AddScalar(m1, m2)), false;
    }
  }

  // ---------------------------------------------------------------------
  // Compound assignment
  // ---------------------------------------------------------------------

  /** `add_assign_scalar`: add the zipped cells of m2 into m1's buffer, one at a time. */
  method AddAssignScalar(m1: MutMatrix, m2: Matrix)
    modifies m1
    ensures m1.rows == old(m1.rows) && m1.cols == old(m1.cols)
    ensures |m1.data| == |old(m1.data)|
    ensures forall i :: 0 <= i < |m1.data| ==>
      m1.data[i] == if i < |m2.data| then old(m1.data[i]) + m2.data[i] else old(m1.data[i])
  {
    var n := Min(|m1.data|, |m2.data|);
    for i := 0 to n
      invariant m1.rows == old(m1.rows) && m1.cols == old(m1.cols)
      invariant |m1.data| == |old(m1.data)|
      invariant forall j :: 0 <= j < |m1.data| ==>
        m1.data[j] == if j < i then old(m1.data[j]) + m2.data[j] else old(m1.data[j])
    {
      m1.data := m1.data[i := m1.data[i] + m2.data[i]];
    }
  }

  /** `add_assign_matrix_impl`: the dimension checks, then the in-place scalar add. */
  method AddAssignMatrixImpl(m1: MutMatrix, m2: Matrix) returns (r: Result<()>)
    requires m1.Value().Valid() && m2.Valid()
    modifies m1
    ensures r.Ok? <==> Sum(old(m1.Value()), m2).Ok?
    ensures r.Ok? ==> m1.Value() == Sum(old(m1.Value()), m2).value
    ensures r.Err? ==> r.error == Sum(old(m1.Value()), m2).error && m1.Value() == old(m1.Value())
  {
    if m1.rows != m2.rows {
      return Err(RowsMismatch);
    }
    if m1.cols != m2.cols {
      return Err(ColsMismatch);
    }
    AddAssignScalar(m1, m2);
    r := Ok(());
  }

  /**
   * `AddAssign::add_assign` (`m1 += m2`): checks the dimensions itself and
   * then calls `add_assign_matrix_impl`. On success m1 holds exactly what
   * `m1 + m2` returns; m2 is a value and cannot change.
   */
  method AddAssign(m1: MutMatrix, other: Matrix) returns (r: Result<()>)
    requires m1.Value().Valid() && other.Valid()
    modifies m1
    ensures r.Ok? <==> Sum(old(m1.Value()), other).Ok?
    ensures r.Ok? ==> m1.Value() == Sum(old(m1.Value()), other).value
    ensures r.Err? ==> r.error == Sum(old(m1.Value()), other).error && m1.Value() == old(m1.Value())
  {
    if m1.rows != other.rows {
      return Err(RowsMismatch);
    }
    if m1.cols != other.cols {
      return Err(ColsMismatch);
    }
    r := AddAssignMatrixImpl(m1, other);
  }

  // ---------------------------------------------------------------------
  // Algebra of the sum
  // ---------------------------------------------------------------------

  /** A + B == B + A, including which panic a mismatch raises. */
  lemma SumCommutes(a: Matrix, b: Matrix)
    requires a.Valid() && b.Valid()
    ensures Sum(a, b) == Sum(b, a)
  {
    if Sum(a, b).Ok? {
      assert Sum(a, b).value.data == Sum(b, a).value.data;
    }
  }

  /** (A + B) + C == A + (B + C) for matrices of one shape. */
  lemma SumAssociates(a: Matrix, b: Matrix, c: Matrix)
    requires a.Valid() && b.Valid() && c.Valid()
    requires a.rows == b.rows == c.rows && a.cols == b.cols == c.cols
    ensures Sum(Sum(a, b).value, c) == Sum(a, Sum(b, c).value)
  {
    assert Sum(Sum(a, b).value, c).value.data == Sum(a, Sum(b, c).value).value.data;
  }

  /** The default-filled matrix is the identity of the sum, on either side. */
  lemma SumWithEmpty(m: Matrix)
    requires m.Valid()
    ensures Sum(m, Empty(m.rows, m.cols)) == Ok(m)
    ensures Sum(Empty(m.rows, m.cols), m) == Ok(m)
  {
    assert Sum(m, Empty(m.rows, m.cols)).value.data == m.data;
    SumCommutes(m, Empty(m.rows, m.cols));
  }

  /** The source's test: A + I has 2, 6, 10 on its diagonal. */
  lemma SumExample()
    ensures var s := Sum(New(3, [[1, 2, 3], [4, 5, 6], [7, 8, 9]]), New(3, [[1, 0, 0], [0, 1, 0], [0, 0, 1]]));
      && s.Ok? && s.value.rows == 3 && s.value.cols == 3
      && Index(s.value, 0, 0) == Ok(2) && Index(s.value, 1, 1) == Ok(6) && Index(s.value, 2, 2) == Ok(10)
  {
    var a := New(3, [[1, 2, 3], [4, 5, 6], [7, 8, 9]]);
    var i := New(3, [[1, 0, 0], [0, 1, 0], [0, 0, 1]]);
    assert a.data[Offset(1, 1, 3)] == 5 && a.data[Offset(2, 2, 3)] == 9;
    assert i.data[Offset(1, 1, 3)] == 1 && i.data[Offset(2, 2, 3)] == 1;
  }

  /** The source's test of `+=`: A += I leaves 2, 6, 10 on the diagonal. */
  method AddAssignExample() returns (m: Matrix)
    ensures m.rows == 3 && m.cols == 3
    ensures Index(m, 0, 0) == Ok(2) && Index(m, 1, 1) == Ok(6) && Index(m, 2, 2) == Ok(10)
  {
    var a := new MutMatrix(New(3, [[1, 2, 3], [4, 5, 6], [7, 8, 9]]));
    var r := AddAssign(a, New(3, [[1, 0, 0], [0, 1, 0], [0, 0, 1]]));
    SumExample();
    assert r.Ok? && a.rows == 3 && a.cols == 3;
    m := a.Value();
  }
}
