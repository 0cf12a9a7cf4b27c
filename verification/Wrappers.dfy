/** Failure-carrying datatypes shared by every module of the model. */
module Wrappers {

  datatype Option<+T> = None | Some(value: T) {
    function Or(other: Option<T>): (r: Option<T>) {
      if Some? then this else other
    }

    function GetOr(default: T): (t: T) {
      if Some? then value else default
    }
  }

  datatype Result<+T, +E> = Ok(value: T) | Err(error: E)
}
