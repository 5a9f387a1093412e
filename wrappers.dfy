/** Small value types shared by the model. */
module Wrappers {

  /** A value that may be absent: an HTTP query parameter that was not sent, a nullable column. */
  datatype Option<T> = None | Some(value: T) {
    /** The value, or `default` when absent (a JavaScript destructuring default). */
    function GetOr(default: T): T {
      if Some? then value else default
    }
  }

  /** The outcome of an operation that may throw: the thrown error's message is kept. */
  datatype Result<T> = Success(value: T) | Failure(error: string)

  /**
   * A JavaScript number, as far as the indexer needs one: an integer, or NaN,
   * which is what `n + undefined` evaluates to.
   */
  datatype JsNumber = Num(n: int) | NaN
}
