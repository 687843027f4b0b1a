/** Optional values, for the places where the pages use `null`
    or a possibly missing property. */
module Wrappers {

  datatype Option<+T> = None | Some(value: T) {

    /** The encapsulated value, or `default` when there is none
        (the `x || default` idiom when `x` may be missing). */
    function GetOr(default: T): (r: T)
      ensures Some? ==> r == value
      ensures None? ==> r == default
    {
      match this
      case Some(v) => v
      case None => default
    }
  }
}

/** The remote HTTP API as the pages see it. Transport, status codes and
    JSON decoding are not modelled: every call either succeeds with a value
    or fails, and which one happens is chosen by the caller of the model. */
module ApiClient {

  datatype Response<+T> = Ok(value: T) | Failed
}
