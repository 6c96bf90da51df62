/** Optional values, as the Python code's `None`-or-value results. */
module Wrappers {
  datatype Option<T> = None | Some(value: T) {
    /** The value, or `default` when absent. */
    function GetOr(default: T): T {
      if Some? then value else default
    }
  }
}
