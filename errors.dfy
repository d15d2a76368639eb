/** The exceptions the modelled code raises, a result type that carries them, and Python's optional values. */
module Errors {

  datatype Error =
    | ValueError         // a capacity of zero or less, or an unknown balancing algorithm
    | TimeoutError       // the lock was not acquired within the timeout
    | ZeroDivisionError  // `capacity // num_segments` with no segments
    | AttributeError     // an attribute of None: a link of a node that was unlinked meanwhile

  datatype Result<T> = Ok(value: T) | Err(error: Error)

  /** A value or Python's None. */
  datatype Option<T> = None | Some(value: T)
}
