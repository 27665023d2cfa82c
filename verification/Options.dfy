/** An optional value: the model's reading of a JavaScript field that may be
    `undefined` (or `null`), and of a parse that may produce `NaN`. */
module Options {

  datatype Option<+T> = None | Some(value: T) {

    /** The value, or `default` when there is none: the `x || default` idiom
        for values whose only falsy case is the missing one. */
    function GetOr(default: T): T {
      match this
      case Some(v) => v
      case None => default
    }
  }
}
