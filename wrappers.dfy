/** Optional values and error-carrying results, used wherever the app returns
    `undefined`/`null` or throws. */
module Wrappers {

  datatype Option<T> = None | Some(value: T)
  {
    /** The value, or `default` when absent (`x ?? default`). */
    function GetOr(default: T): (r: T)
      ensures this.Some? ==> r == value
      ensures this.None? ==> r == default
    {
      match this
      case None => default
      case Some(v) => v
    }
  }

  datatype Result<T, E> = Success(value: T) | Failure(error: E)

  /** JavaScript truthiness of an optional string: null, undefined and '' are
      all falsy. */
  predicate Truthy(s: Option<string>)
  {
    s.Some? && s.value != ""
  }
}
