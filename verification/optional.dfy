/** A value that may be absent: JavaScript's `undefined` / `null`, or a
    numeric result that is NaN. */
module Optional {

  datatype Option<+T> = None | Some(value: T) {

    /** The wrapped value, or `default` when there is none. */
    function GetOr(default: T): T {
      match this
      case Some(v) => v
      case None => default
    }
  }
}
