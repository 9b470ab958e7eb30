/** The Some/None datatype the rest of the model uses for JavaScript's `undefined`-able values. */
module Wrappers {

  datatype Option<+T> = None | Some(value: T) {

    /** The held value, or `default` when there is none: JavaScript's `v ?? default` on an optional value. */
    function GetOr(default: T): T {
      match this
      case Some(v) => v
      case None => default
    }
  }
}
