/** Small failure-carrying datatypes shared by every module of the model. */
module Wrappers {

  /** A Java reference that may be null: `None` stands for null. */
  datatype Option<+T> = None | Some(value: T)

  /** The value of a Java expression that either returns or throws an exception with a message. */
  datatype Result<+T> = Ok(value: T) | Err(message: string)

  /** What a remote call that returns a body produced: the body, or the message of the exception it threw. */
  datatype Fetch<+T> = Fetched(value: T) | FetchFailed(message: string)

  /** What a remote call whose body is ignored produced. */
  datatype CallResult = Done | Failed(message: string)
}
