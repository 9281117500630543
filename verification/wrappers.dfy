/** Optional values and the outcome of an operation that may fail. */
module Wrappers {

  datatype Option<T> = None | Some(value: T)

  /**
   * The failures the engine can report. The first two mirror the Java
   * exception classes the engine throws; NullReference stands for a
   * dereference of an absent node, and OutOfFuel marks the point where the
   * model gives up on a loop the program itself would never leave.
   */
  datatype Error =
    | IllegalArgument(msg: string)
    | Unsupported(msg: string)
    | NullReference
    | OutOfFuel

  datatype Result<T> = Ok(value: T) | Err(error: Error)

  /** The message of an IllegalArgumentException, or "" for the other kinds. */
  function Message(e: Error): string
  {
    match e
    case IllegalArgument(m) => m
    case Unsupported(m) => m
    case _ => ""
  }
}
