/** Result and option types shared by every component, with the error classes of the AML engine. */
module Wrappers {

  datatype Option<+T> = None | Some(value: T)

  /** Error classes of the AML engine. `Fault` stands for a Rust panic: a slice whose bounds are
      reversed or past the end or, in a build with overflow checks, an over-wide shift or an arithmetic
      overflow. `OutOfFuel` never occurs in the source: it is how a run that has not finished yet shows
      up in the model. */
  datatype Error =
    | Truncated
    | InvalidBytecode
    | InvalidName
    | InvalidState
    | NamespaceConflict
    | UndefinedObject
    | Unsupported
    | HostFailure
    | Overflow
    | Fault
    | OutOfFuel

  datatype Result<+T> = Ok(value: T) | Err(error: Error)
  {
    predicate IsFailure() { Err? }

    function PropagateFailure<U>(): Result<U>
      requires Err?
    {
      Err(error)
    }

    function Extract(): T
      requires Ok?
    {
      value
    }
  }

  datatype Unit = Unit
}
