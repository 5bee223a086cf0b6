/** Optional values: the model's rendering of C# `null`. */
module Wrappers {

  datatype Option<+T> = None | Some(value: T)
  {
    /** `x ?? default` */
    function UnwrapOr(default: T): T
    {
      if Some? then value else default
    }
  }
}
