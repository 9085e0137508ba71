/** Optional values: the model's reading of Python's `X | None`. */
module Wrappers {

  datatype Option<+T> = None | Some(value: T)

  /** The zero or one elements of an optional value, as a sequence. */
  function ToSeq<T>(o: Option<T>): seq<T>
  {
    match o
    case None => []
    case Some(v) => [v]
  }
}
