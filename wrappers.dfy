/** Option and Result, the two shapes the model uses for Rust's `Option` arguments
    and for the operations that panic or produce no number. */
module Wrappers {

  datatype Option<T> = None | Some(value: T) {

    /** `Option::unwrap_or`: the carried value, or `default` when there is none. */
    function UnwrapOr(default: T): (r: T)
      ensures Some? ==> r == value
      ensures None? ==> r == default
    {
      match this
      case Some(v) => v
      case None => default
    }
  }

  datatype Result<T, E> = Ok(value: T) | Err(error: E)
}
