/** The two sum types the modelled code relies on: Rust's `Option` and `Result`. */
module Wrappers {

  /** An optional value (`std::option::Option`). */
  datatype Option<+T> = None | Some(value: T) {

    /** The contained value, or `default` when absent (`Option::unwrap_or`). */
    function UnwrapOr(default: T): (r: T)
      ensures Some? ==> r == value
      ensures None? ==> r == default
    {
      match this
      case Some(v) => v
      case None => default
    }
  }

  /** A success value or an error value (`std::result::Result`). */
  datatype Result<+R, +E> = Ok(value: R) | Err(error: E)
}
