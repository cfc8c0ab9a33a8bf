/** Optional values: Kotlin's nullable types. */
module Opt {

  datatype Option<T> = None | Some(value: T)
  {
    /** Kotlin's `?:` operator. */
    function GetOr(default: T): T {
      if Some? then value else default
    }
  }
}
