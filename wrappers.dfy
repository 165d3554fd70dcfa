/** Optional values and error outcomes shared by the other modules. */
module Wrappers {

  /** An optional value; `None` plays the part of OpenERP's `False` for an unset reference. */
  datatype Option<+T> = None | Some(value: T)

  /** Python's `a or b` on two optional references: the first one that is set. */
  function OrElse<T>(a: Option<T>, b: Option<T>): (r: Option<T>)
    ensures a.Some? ==> r == a
    ensures a.None? ==> r == b
  {
    if a.Some? then a else b
  }

  /** The value of an operation that either succeeds or raises an error. */
  datatype Result<+T, +E> = Ok(value: T) | Err(error: E)
}
