/** Stand-ins for the few .NET runtime types the queue and the program rely on. */
module DotNet {

  /** A value that may be absent: a null reference, a missing file, an unset setting. */
  datatype Option<+T> = None | Some(value: T)

  /** A thrown exception; only its printable description is kept. */
  datatype Exception = Exception(description: string)

  /** The outcome of a call that may throw: a normal return or the exception it threw. */
  datatype Result<+T> = Ok(value: T) | Err(error: Exception)

  /** Environment.NewLine on the Windows runtime the program targets. */
  const NewLine: string := "\r\n"

  /** Thrown by an array index past the end, such as `q[1]` on a one-element split. */
  const IndexOutOfRange: Exception := Exception("System.IndexOutOfRangeException")

  /** Thrown when a member of a null reference is read. */
  const NullReference: Exception := Exception("System.NullReferenceException")
}
