/** Values that may be absent, and operations that may fail. */
module Options {
  datatype Option<+T> = None | Some(value: T)

  datatype Result<+T, +E> = Ok(value: T) | Err(error: E)

  /** What becomes of one command sent to a server: an InDoubt one took effect but was reported as failed. */
  datatype Fate = Worked | Failed | InDoubt
  {
    predicate Applied() {
      !Failed?
    }
  }
}
