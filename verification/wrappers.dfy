/** Failure-carrying results for the operations of the data iterators that
    raise in the original program (a missing key, an empty pool to draw from,
    an empty argument to argmin, a negative pad width). */
module Wrappers {

  datatype Result<+T, +E> = Ok(value: T) | Err(error: E)

  datatype Option<+T> = None | Some(value: T)
}
