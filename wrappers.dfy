/** Optional values and the outcome of an operation that the source ends by throwing. */
module Wrappers {

  datatype Option<+T> = None | Some(value: T)

  /** `Fail` stands for a Java RuntimeException or UnsupportedOperationException. */
  datatype Outcome = Pass | Fail(message: string)
}
