/** Failure-carrying result types shared by the whole model. A Python
    function that returns `None` becomes an `Option`; one that raises
    becomes a `Result` (a value or an error) or an `Outcome` (nothing or
    an error). */
module Wrappers {

  datatype Option<+T> = None | Some(value: T)

  datatype Result<+T, +E> = Success(value: T) | Failure(error: E)

  datatype Outcome<+E> = Pass | Fail(error: E)
}
