/** Failure-compatible wrappers used by the nodes: an optional input and a
    result that either carries a value or the error the node raises. */
module Results {

  /** An optional node input (Python's `None` default). */
  datatype Option<+T> = None | Some(value: T)

  /** Either a value or the error the node raises instead of returning. */
  datatype Result<+T, +E> = Ok(value: T) | Err(error: E) {

    predicate IsFailure() {
      Err?
    }

    function PropagateFailure<U>(): Result<U, E>
      requires Err?
    {
      Err(error)
    }

    function Extract(): T
      requires Ok?
    {
      value
    }
  }
}
