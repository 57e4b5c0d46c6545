/** Java exceptions thrown by the modelled code, and the wrappers that carry them
    out of a function or method instead of unwinding the stack. */
module JavaLang {

  /** The exceptions the modelled library throws or lets escape. */
  datatype Exception =
    | IllegalArgument
    | IllegalAccess
    | ClassCast
    | NullPointer
    | ArrayIndexOutOfBounds
    | IndexOutOfBounds
    | StackOverflow
      /** A RuntimeException: thrown with a message only (cause None), or wrapping the
          exception that caused it, as WrappedObject does with a failed slot access. */
    | Runtime(cause: Option<Exception>)
      /** A vector whose length differs from the number of slots it is meant for. */
    | ShapeMismatch

  datatype Option<+T> = None | Some(value: T)

  /** A value, or the exception that was thrown instead of returning it. */
  datatype Result<+T> = Ok(value: T) | Err(error: Exception) {
    predicate IsFailure() { Err? }
    function PropagateFailure<U>(): Result<U>
      requires Err?
    {
      Err(error)
    }
    function Extract(): T
      requires Ok?
    {
      value
    }
  }

  /** Normal completion of a void method, or the exception it threw. */
  datatype Outcome = Pass | Fail(error: Exception)
}
