/** The crate's error type and the `Result` every fallible operation returns. */
module HttpError {

  /** The three failures the server names; each carries a fixed message. */
  datatype Error = DirectoryNotSet | InvalidMethod | FailedToCompressPayload {

    /** The text the error prints as. */
    function Message(): (m: string)
      ensures |m| > 0
    {
      match this
      case DirectoryNotSet => "Directory not set"
      case InvalidMethod => "Invalid method"
      case FailedToCompressPayload => "Failed to compress payload"
    }
  }

  /** No two errors print the same way, so a message identifies its error. */
  lemma MessageInjective(a: Error, b: Error)
    ensures a.Message() == b.Message() ==> a == b
  {
  }

  datatype Result<T> = Ok(value: T) | Err(error: Error)

  datatype Option<T> = None | Some(value: T)
}
