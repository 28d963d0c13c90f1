/** The two outcome shapes of the model: `Option` for a lookup that may find
    nothing (Python's `None`, a missing key or element), and `Result` for an
    operation that either produces a value or stops with an error that the
    scraper raises to its caller. */
module Outcome {

  datatype Option<+T> = None | Some(value: T)

  datatype Result<+T, +E> = Success(value: T) | Failure(error: E)
}
