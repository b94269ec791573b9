/** Failure-compatible results shared by the kernels. */
module Wrappers {

  /** A value that may be absent: the `Option<usize>` / `std::optional<size_t>`
      returned by the nearest-neighbour search. */
  datatype Option<+T> = None | Some(value: T)

  /** Either a value or the reason none could be produced. */
  datatype Result<+T, +E> = Success(value: T) | Failure(error: E)
}
