/** Shared wrappers: an optional value, and the outcome of a Python
    computation that either returns a value or raises an exception that
    nothing catches. */
module Common {

  datatype Option<+T> = None | Some(value: T) {
    /** `x or default` for a value that is falsy exactly when absent. */
    function GetOr(default: T): T {
      match this
      case Some(v) => v
      case None => default
    }
  }

  /** The exceptions the modelled code can raise without catching them. */
  datatype Exception = AttributeError | TypeError | UnicodeDecodeError

  datatype Result<+T> = Ok(value: T) | Raised(exc: Exception)
}
