/** Optional values and results, used for Python's `None` and for exceptions. */
module Options {

  datatype Option<+T> = None | Some(value: T) {
    /** `d.get(key, default)` once the lookup has produced this option. */
    function GetOr(default: T): T {
      match this
      case Some(v) => v
      case None => default
    }
  }

  /** A computation that either returns a value or raises an exception. */
  datatype Result<+T, +E> = Ok(value: T) | Err(error: E)
}
