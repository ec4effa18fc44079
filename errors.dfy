/** The three failure kinds of the scheduler and the result type that carries them. */
module Errors {

  /** The error taxonomy: a malformed specification, a graph with no job that
      can start, and a graph that stalls before every job has run. */
  datatype Error = InvalidJobObject | NoStart | CircularDependency

  /** Either the value an operation produced or the one error it failed with. */
  datatype Result<+T> = Success(value: T) | Failure(error: Error)
}
