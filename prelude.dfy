/** Optional values and results with an error, used for Python's `None`
    returns and for raised exceptions throughout the model. */
module Wrappers {

  datatype Option<+T> = None | Some(value: T)

  datatype Result<+T, +E> = Ok(value: T) | Err(error: E) {
    predicate IsFailure() {
      Err?
    }

    function PropagateFailure<U>(): Result<U, E>
      requires Err?
    {
      Err(error)
    }

    function Extract(): T
      requires Ok?
    {
      value
    }
  }
}

/** Octets: the `bytes` of Python and the contents of a JavaScript
    `ArrayBuffer`. */
module Octets {

  type byte = x: int | 0 <= x < 256

  type Bytes = seq<byte>
}
