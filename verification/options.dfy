/** The Option datatype standing in for Java's nullable references and boxed values. */
module Options {

  /** `None` is Java's `null`; `Some(v)` is a present value. */
  datatype Option<+T> = None | Some(value: T) {

    /** The value when present, `default` when absent. */
    function GetOr(default: T): (r: T)
      ensures Some? ==> r == value
      ensures None? ==> r == default
    {
      match this
      case Some(v) => v
      case None => default
    }
  }
}
