/** Optional values, used wherever the modelled code can produce "no
    value": a missing file, JavaScript's NaN, a reply that is never sent. */
module Wrappers {

  datatype Option<+T> = None | Some(value: T) {

    /** The value, or `default` when there is none. */
    function GetOr(default: T): T {
      match this
      case Some(v) => v
      case None => default
    }
  }
}
