/** Shared failure-carrying datatypes.

    The interpreter reports every failure as an `RloxError` carrying a line, a
    message and the text it was "near" (src/error.rs). The model keeps an
    abstract error: its kind and its message. */
module Common {

  datatype Option<T> = None | Some(value: T)

  /** The three error families the core raises (I/O errors are not modelled). */
  datatype ErrorKind = Lexical | Syntax | Runtime

  datatype Error = Error(kind: ErrorKind, message: string)

  datatype Result<T> = Success(value: T) | Failure(error: Error)

  /** `a` is a prefix of `b`. */
  predicate IsPrefix<T(==)>(a: seq<T>, b: seq<T>) {
    |a| <= |b| && b[..|a|] == a
  }
}
