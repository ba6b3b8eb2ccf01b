/** Failure-compatible wrappers for the two ways the tester's statistics code
    can throw: `reduce` over an empty array and a property read on `null`. */
module Results {

  /** The exceptions the statistics core can raise. Both are a JavaScript
      `TypeError` at run time; the names say which statement raises them. */
  datatype Error =
    | EmptyAggregateSet  // `reduce` without an initial value over an empty array
    | UnknownTest        // `test.ModeA` / `test.ModeB` read while `test` is still null

  datatype Option<+T> = None | Some(value: T)

  datatype Result<+T> = Success(value: T) | Failure(error: Error) {

    predicate IsFailure() {
      Failure?
    }

    function PropagateFailure<U>(): Result<U>
      requires Failure?
    {
      Failure(error)
    }

    function Extract(): T
      requires Success?
    {
      value
    }
  }
}
