/** Option and Result, used wherever the modelled code returns null or raises. */
module Wrappers {

  datatype Option<+T> = None | Some(value: T) {
    predicate IsFailure() { None? }

    function PropagateFailure<U>(): Option<U>
      requires None?
    {
      None
    }

    function Extract(): T
      requires Some?
    {
      value
    }
  }

  /** The exceptions the modelled code raises, by .NET exception class. */
  datatype Exception =
    | ArgumentError            // ArgumentException
    | ArgumentOutOfRange       // ArgumentOutOfRangeException
    | ArgumentNull             // ArgumentNullException from a dictionary lookup with a null key
    | KeyNotFound              // KeyNotFoundException from a dictionary indexer
    | InvalidOperation         // InvalidOperationException
    | InvalidCast              // InvalidCastException
    | NotImplemented           // NotImplementedException, used by the parsers for syntax errors
    | Format                   // FormatException from `int.Parse`
    | Overflow                 // OverflowException from `int.Parse`

  datatype Result<+R> = Success(value: R) | Failure(error: Exception) {
    predicate IsFailure() { Failure? }

    function PropagateFailure<U>(): Result<U>
      requires Failure?
    {
      Failure(error)
    }

    function Extract(): R
      requires Success?
    {
      value
    }
  }
}
