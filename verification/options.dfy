/** The optional-value datatype shared by every module of the model. */
module Options {

  /** A value that may be missing: a dictionary key that is absent, a column
      that holds no number, a line that did not parse. */
  datatype Option<+T> = None | Some(value: T) {

    /** The held value, or `default` when there is none. */
    function GetOr(default: T): T {
      match this
      case Some(v) => v
      case None => default
    }
  }
}
