/** Failure-compatible result types and the exceptions the modelled Python code raises. */
module Wrappers {

  /** The Python exceptions that the modelled code can raise. */
  datatype Error =
    | ValueError          // int() or float() given text that is not a number
    | IndexError          // a list or array index outside its bounds
    | LookupError         // a dof the assembler does not know
    | ZeroDivisionError   // a scaling factor whose divisor is zero
    | RuntimeError(message: string)

  datatype Option<+T> = None | Some(value: T)

  datatype Result<+T> = Success(value: T) | Failure(error: Error) {
    predicate IsFailure() { Failure? }

    function PropagateFailure<U>(): Result<U>
      requires Failure?
    {
      Failure(error)
    }

    function Extract(): T
      requires Success?
    {
      value
    }
  }

  /** The outcome of an operation that returns nothing but may raise. */
  datatype Outcome = Pass | Fail(error: Error)
}
