/** A value that may be absent: a nil pointer, a nil slice, a missing object. */
module Options {
  datatype Option<+T> = None | Some(value: T)

  /** A nil slice has no elements. */
  function Elements<T>(o: Option<seq<T>>): seq<T> {
    match o
    case None => []
    case Some(xs) => xs
  }
}
