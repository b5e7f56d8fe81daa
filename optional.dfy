/** Swift's `T?`: a value that may be absent. */
module Optional {

  datatype Option<+T> = None | Some(value: T) {

    /** The Swift `??` operator: the wrapped value, or `default` when absent. */
    function GetOr(default: T): T {
      match this
      case Some(v) => v
      case None => default
    }
  }
}
