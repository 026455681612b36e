/** Optional values: Python's `None` versus a present value. */
module Wrappers {

  datatype Option<T> = None | Some(value: T)
  {
    /** Python's `x or default` when `None` is the only falsy case. */
    function GetOr(default: T): T
    {
      match this
      case None => default
      case Some(v) => v
    }

    /** Python's `x or y` when `None` is the only falsy case. */
    function Or(other: Option<T>): Option<T>
    {
      if this.Some? then this else other
    }
  }

}
