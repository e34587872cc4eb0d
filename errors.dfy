/**
 * The ways an operation of the matrix library can abort. Each constructor
 * stands for one panic of the source: a failed `assert_eq!` with its own
 * message, or an out-of-range slice or index.
 */
module Errors {

  datatype Error =
    | RowsMismatch            // "Matrices must have the same number of rows"
    | ColsMismatch            // "Matrices must have the same number of columns"
    | IncompatibleDimensions  // "Incompatible matrix dimensions"
    | DataLengthMismatch      // "Data length must match rows * cols"
    | IndexOutOfRange         // a flat offset at or past the end of the buffer
    | SliceStartAfterEnd      // a slice `data[start..end]` with start > end
    | RangeUnderflow          // `end - start` on a range with end < start (usize underflow)

  datatype Result<T> = Ok(value: T) | Err(error: Error)
}
