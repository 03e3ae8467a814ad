/** Optional values and pass/fail outcomes, used for the absent values
    (NaT / NaN / None) and the fatal input errors of the pipelines. */
module Options {

  datatype Option<+T> = None | Some(value: T) {
    /** The wrapped value, or `default` when absent. */
    function GetOr(default: T): T {
      match this
      case Some(v) => v
      case None => default
    }
  }

  /** The result of a check that either passes or fails with an error. */
  datatype Outcome<+E> = Pass | Fail(error: E)
}
