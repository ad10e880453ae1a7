/** Optional values (JavaScript's `undefined`) and fallible results (a thrown error). */
module Wrappers {

  datatype Option<T> = None | Some(value: T) {
    /** The value, or `default` when absent: JavaScript's `x || default` for a present-or-undefined `x`. */
    function GetOr(default: T): T {
      if Some? then value else default
    }
  }

  datatype Result<T, E> = Ok(value: T) | Err(error: E)
}
