/**
 The shapes of values that asynchronous operations deliver: an optional value
 (Kotlin's nullable types and RxJava's `Maybe`), the failure a stream reports
 (a `Throwable`), and the outcome of a single-shot request.
 */
module Results {

  datatype Option<+T> = None | Some(value: T)

  /** A `Throwable`, reduced to what tells failures apart. */
  datatype Error =
    | NullPointerException
    | Throwable(message: string)

  /** What a single-shot request delivers to its subscriber: one value or one error. */
  datatype Outcome<+T> = Success(value: T) | Failure(error: Error)
}
