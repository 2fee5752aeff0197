/** A value that may be absent. The dashboard's pandas code yields NaN or
    raises where this model yields `None`: the mean of no rows, the maximum
    of an empty column, a scalar squeezed out of zero or several rows. */
module Optional {

  datatype Option<+T> = None | Some(value: T) {

    /** The carried value, or `default` when there is none. */
    function GetOr(default: T): T {
      match this
      case Some(v) => v
      case None => default
    }
  }
}
