/** Nullable references and thrown exceptions, as values. */
module Wrappers {

  /** A C# reference that may be null: `None` is null. */
  datatype Option<+T> = None | Some(value: T) {
    function GetOr(default: T): T {
      match this
      case Some(v) => v
      case None => default
    }
  }

  /** The .NET exceptions the modelled code can throw and does not catch. */
  datatype Exception =
    | IndexOutOfRange
    | ArgumentOutOfRange
    | Argument
    | ArgumentNull
    | NullReference
    | InvalidOperation
    | Format
    | Overflow
    | NotSupported

  /** The outcome of a call that either returns a value or throws. */
  datatype Result<+T> = Ok(value: T) | Throw(error: Exception) {
    predicate IsFailure() { Throw? }
    function PropagateFailure<U>(): Result<U>
      requires Throw?
    {
      Throw(error)
    }
    function Extract(): T
      requires Ok?
    {
      value
    }
  }
}
