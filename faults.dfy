/** Failures that the planning core can raise, named after the Python exceptions they stand for. */
module Faults {

  datatype Fault =
    | ZeroDivision   // float division by a zero laser angle increment
    | IndexError     // an out-of-range list or array index
    | EmptyArgMin    // np.argmin of an empty cost array

  /** A value, or the fault that stopped its computation. */
  datatype Result<+T> = Success(value: T) | Failure(error: Fault) {

    predicate IsFailure() {
      Failure?
    }

    function PropagateFailure<U>(): Result<U>
      requires Failure?
    {
      Failure(error)
    }

    function Extract(): T
      requires Success?
    {
      value
    }
  }
}
