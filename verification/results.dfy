/** Failure-carrying datatypes shared by the letter model. */
module Results {

  /** `None` stands for "no value": a lookup miss, or a computation that never returns. */
  datatype Option<+T> = None | Some(value: T)

  /** The outcome of an operation that can be refused with a user-visible reason. */
  datatype Result<+T, +E> = Ok(value: T) | Err(error: E)
}
