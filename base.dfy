/** Small shared vocabulary of the user service model. */
module Base {

  /** A value that may be absent: `undefined`/`null` in the service. */
  datatype Option<+T> = None | Some(value: T)

  /** The outcome of a step that may throw. */
  datatype Result<+T, +E> = Success(value: T) | Failure(error: E)

  /** Seconds since the epoch, as `jsonwebtoken` counts them. */
  type Time = int

  /** A user id (a UUID string in the service). */
  type Id = string
}
