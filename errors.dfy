/** Failure-compatible wrappers shared by every module of the model, and the
    error taxonomy of the system. The source reports all failures through one
    `anyhow::Error` type; the model keeps only which kind of step failed. */
module Errors {

  /** The kind of step that failed. */
  datatype Error =
    | DecodeError      // malformed wire payload
    | IoError          // read/write/shutdown failure on an established connection
    | ConfigError      // missing builder input, or the blocking mode could not be applied
    | BindError        // stale-entry removal or bind failure
    | PermissionError  // chmod failure
    | AcceptError      // accept failure on the listening socket

  datatype Option<+T> = None | Some(value: T) {
    predicate IsFailure() { None? }

    function PropagateFailure<U>(): Option<U>
      requires None?
    {
      None
    }

    function Extract(): T
      requires Some?
    {
      value
    }
  }

  datatype Result<+T> = Success(value: T) | Failure(error: Error) {
    predicate IsFailure() { Failure? }

    function PropagateFailure<U>(): Result<U>
      requires Failure?
    {
      Failure(error)
    }

    function Extract(): T
      requires Success?
    {
      value
    }
  }

  /** The result of an operation that returns `()` on success. */
  datatype Outcome = Pass | Fail(error: Error)

  /** Regrouping a concatenation of sequences: buffers and wire text are
      built piece by piece throughout the model. */
  lemma AppendAssoc<T>(a: seq<T>, b: seq<T>, c: seq<T>)
    ensures (a + b) + c == a + (b + c)
  {
  }
}
