/** Optional values: a JavaScript `undefined`/`null`/`NaN` where the source
    may hold one, or a field that a request body may leave out. */
module Wrappers {

  datatype Option<+T> = None | Some(value: T) {

    /** The wrapped value, or `default` when there is none. */
    function GetOr(default: T): T {
      match this
      case Some(v) => v
      case None => default
    }
  }
}
