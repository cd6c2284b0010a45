/** Failure-carrying wrapper types used throughout the model.
    A Python `try ... except: continue` becomes an `Option` (the value is
    either read or the line is skipped); an exception the script never
    catches becomes the `Err` side of a `Result`, which ends the run. */
module Options {

  datatype Option<+T> = None | Some(value: T) {

    /** The wrapped value, or `default` when there is none. */
    function GetOr(default: T): T {
      match this
      case Some(v) => v
      case None => default
    }

    /** This option if it holds a value, otherwise `other`. */
    function OrElse(other: Option<T>): Option<T> {
      match this
      case Some(_) => this
      case None => other
    }
  }

  datatype Result<+T, +E> = Ok(value: T) | Err(error: E)
}
