/** Option and Result, the two outcome types the decoding engine uses. */
module Wrappers {

  /** A value that may be absent: a C++ `std::optional`, or a DuckDB `Value` that may be null. */
  datatype Option<+T> = None | Some(value: T)

  /** The failures that end a scan: a failed `StatusOr<Row>` from the store, or an
      exception thrown by `std::stoul`/`std::stoull` on text that is not a number. */
  datatype Failure =
    | StoreError(message: string)
    | ParseError(text: string)

  /** The outcome of a step that may throw. */
  datatype Result<+T> = Ok(value: T) | Err(failure: Failure)
}
