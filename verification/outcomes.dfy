/**
 * The exceptions the trial-scoring path of multi_hub_rep.py can raise, and the
 * failure-compatible Result type that carries them. A Python exception aborts
 * the whole run; here it becomes a `Failure` that every caller passes on
 * unchanged (with `:-`).
 */
module Outcomes {

  /** One constructor per cause of an exception in the scoring path. */
  datatype Error =
    | CellMissing(column: int)    // IndexError: a CSV row has no cell at this position
    | NameNotFound(name: string)  // ValueError from list.index: no image of this name
    | RepMissing(index: nat)      // IndexError: no representation vector at this position
    | UnknownTask                 // ValueError: the task tag is not 2, 3, 'odd' or 'le'
    | NotAnInteger(text: string)  // ValueError from int() applied to a recorded answer
    | EmptySequence               // ValueError from max() or min() of an empty list
    | ZeroDivision                // ZeroDivisionError: all distances of the batch are equal

  datatype Option<+T> = None | Some(value: T)

  datatype Result<+T> = Success(value: T) | Failure(error: Error) {
    predicate IsFailure() {
      Failure?
    }

    function PropagateFailure<U>(): Result<U>
      requires Failure?
    {
      Failure(error)
    }

    function Extract(): T
      requires Success?
    {
      value
    }
  }
}
