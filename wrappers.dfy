/** Optional values, standing in for Python's `None`. */
module Wrappers {

  datatype Option<+T> = None | Some(value: T) {

    /** The value, or `default` when there is none (Python's `x or default`
        for optional settings). */
    function GetOr(default: T): T
    {
      match this
      case Some(v) => v
      case None => default
    }

    /** Python's `a if a is not None else b`. */
    function OrElse(other: Option<T>): Option<T>
    {
      if Some? then this else other
    }
  }
}
