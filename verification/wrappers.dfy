/** Failure-compatible wrappers used for the factory's error path and the query's null. */
module Wrappers {

  /** `None` stands for the JavaScript `null` a query returns before any sample. */
  datatype Option<+T> = None | Some(value: T)

  /** A construction either succeeds or fails with the error the factory throws. */
  datatype Result<+R, +E> = Success(value: R) | Failure(error: E)
}
