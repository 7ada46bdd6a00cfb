/** The absent-or-present value used wherever the modelled code accepts `null`
    (C#) or `undefined` (JavaScript). */
module Optional {

  datatype Option<T> = None | Some(value: T) {

    /** The carried value, or `default` when absent (C#'s `??`). */
    function GetOr(default: T): T {
      match this
      case Some(v) => v
      case None => default
    }
  }
}
