/** Nullable values and failing computations.
    A Java reference that may be null becomes an `Option`; a Java call that
    may throw becomes a `Result` whose `Failure` names the exception. */
module Wrappers {

  datatype Option<+T> = None | Some(value: T) {

    /** The wrapped value, or `default` when there is none (`x != null ? x : default`). */
    function ValueOr(default: T): T {
      match this
      case Some(v) => v
      case None => default
    }
  }

  /** "new value if non-null, else existing" for a field that may itself be null. */
  function Or<T>(update: Option<T>, current: Option<T>): (r: Option<T>)
    ensures update.Some? ==> r == update
    ensures update.None? ==> r == current
  {
    if update.Some? then update else current
  }

  datatype Result<+R, +E> = Success(value: R) | Failure(error: E)
}
