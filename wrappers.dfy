/** Option and Result values for the Python code's `None` and its exceptions. */
module Wrappers {

  datatype Option<+T> = None | Some(value: T)

  /** What made a Python routine stop: a failed `assert`, a missing dict key,
      an index past the end of a list, a failed conversion, an SQL error,
      a name read before it was bound, the recursion depth being exhausted, or a
      `ValueError` raised by a library routine. */
  datatype Failure =
    | AssertionFailed(what: string)
    | KeyMissing(key: string)
    | IndexOutOfRange(index: int)
    | NotInList
    | ConversionFailed(text: string)
    | SqlFailed(command: string)
    | Unbound(name: string)
    | RecursionLimit
    | ValueFailed(what: string)

  datatype Result<+T> = Ok(value: T) | Err(error: Failure)
}
