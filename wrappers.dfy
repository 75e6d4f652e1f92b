/** Optional values: a C# `null`, a JavaScript `undefined`, or a parse that failed. */
module Wrappers {
  datatype Option<+T> = None | Some(value: T) {
    function GetOr(default: T): T {
      match this
      case Some(v) => v
      case None => default
    }
  }
}
