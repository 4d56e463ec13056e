/** Python exceptions raised by the modelled code, as values. */
module Outcomes {

  /** The kind of exception a Python expression raises. */
  datatype Failure =
    | IndexError         // a list subscript past the end
    | ValueError         // int() applied to text that is not an integer literal
    | ZeroDivisionError  // a division by zero

  /** Either the value a Python call returns or the exception it raises. */
  datatype Result<+T> = Ok(value: T) | Err(failure: Failure) {
    predicate IsFailure() { Err? }

    function PropagateFailure<U>(): Result<U>
      requires Err?
    {
      Err(failure)
    }

    function Extract(): T
      requires Ok?
    {
      value
    }
  }

  /** An attribute that a constructor may leave unset. */
  datatype Option<+T> = None | Some(value: T)
}
