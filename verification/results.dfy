/** Failure-carrying wrappers used by the scanner and the parsers. */
module Results {

  /** A value that may be absent: `None` plays the role of Python's `None` from `re.match`. */
  datatype Option<+T> = None | Some(value: T)

  /** Either a decoded value or the error the client raises instead of returning one. */
  datatype Result<+T, +E> = Success(value: T) | Failure(error: E)
}
