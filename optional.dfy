/** A value that may be missing: a JavaScript property that is `undefined`,
    or a DOM lookup such as `getAttribute` that returns `null`. */
module Optional {

  datatype Option<+T> = None | Some(value: T) {

    /** The value when there is one, otherwise `default`. */
    function GetOr(default: T): T {
      match this
      case Some(v) => v
      case None => default
    }
  }
}
