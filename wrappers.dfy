/** Optional values (a Java reference that may be null) and results (a value or a thrown exception). */
module Wrappers {

  datatype Option<+T> = None | Some(value: T) {
    function GetOr(default: T): T {
      match this
      case Some(v) => v
      case None => default
    }
  }

  /** The exceptions the modelled Java code can throw. */
  datatype JavaException =
    | IndexOutOfBounds
    | NullPointer
    | IllegalArgument(message: string)

  datatype Result<+T> = Ok(value: T) | Err(error: JavaException)
}
