/** Optional values, the Python exceptions the modelled code can raise, and
    a failure-compatible Result so that `:-` propagates an exception the way
    an uncaught Python exception leaves the enclosing function. */
module Outcomes {

  datatype Option<+T> = None | Some(value: T)

  /** The exceptions the modelled code raises and does not catch. */
  datatype PyError =
    | KeyError(key: string)
    | NameError(name: string)
    | TypeError
    | IndexError
    | SystemExit(code: int)
    | IOError(path: string)

  datatype Result<+T> = Ok(value: T) | Err(error: PyError) {

    predicate IsFailure() {
      Err?
    }

    function PropagateFailure<U>(): Result<U>
      requires Err?
    {
      Err(error)
    }

    function Extract(): T
      requires Ok?
    {
      value
    }
  }

  /** Python truthiness of an optional string: present and non-empty. */
  predicate Truthy(o: Option<string>) {
    o.Some? && |o.value| > 0
  }
}
