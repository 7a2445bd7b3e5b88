/** Optional values and results shared by every module of the model. */
module Wrappers {

  /** A value that may be absent (JavaScript `undefined`). */
  datatype Option<+T> = None | Some(value: T)

  /** A value or the error that prevented it. */
  datatype Result<+T, +E> = Ok(value: T) | Err(error: E)

  /** A required string: present and not empty. */
  predicate PresentString(v: Option<string>)
  {
    v.Some? && v.value != []
  }

  /** Applies a setter to a value that is present, and leaves an absent one absent. */
  function MapOption<T, U>(v: Option<T>, f: T -> U): Option<U>
  {
    if v.Some? then Some(f(v.value)) else None
  }
}
