/** Optional values and success/failure results, as the Swift code uses them
    (`Optional`, LlamaKit's `Result`, and a signal that completes or errors). */
module Wrappers {

  datatype Option<+T> = None | Some(value: T)

  datatype Result<+R, +E> = Success(value: R) | Failure(error: E) {

    /** LlamaKit's `Result.value()`: the success value, or nothing on failure. */
    function ToOption(): (o: Option<R>)
      ensures o.Some? <==> Success?
      ensures o.Some? ==> o.value == value
    {
      match this
      case Success(v) => Some(v)
      case Failure(_) => None
    }
  }

  /** A step that yields no value: it either completes or fails with an error. */
  datatype Outcome<+E> = Pass | Fail(error: E)
}
