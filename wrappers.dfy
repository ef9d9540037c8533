// Rust's `Option`, shared by every module of the model.

module Wrappers {

  datatype Option<T> = None | Some(value: T)
  {
    /** `Option::unwrap_or`. */
    function UnwrapOr(default: T): (r: T)
      ensures this.Some? ==> r == this.value
      ensures this.None? ==> r == default
    {
      match this
      case None => default
      case Some(v) => v
    }
  }
}
