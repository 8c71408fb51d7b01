/** Failure-aware results: `Failure` stands for an exception of the sources. */
module Wrappers {
  /** A `std::string` of the sources. */
  type Bytes = seq<bv8>

  datatype Option<+T> = None | Some(value: T)

  datatype Error = OutOfRange | BadBase64 | BadPadding | BadLength | NotStored | MaxSizeAlreadySet | NullNode | NoSpace

  datatype Result<+T> = Success(value: T) | Failure(error: Error) {
    predicate IsFailure() {
      Failure?
    }

    function PropagateFailure<U>(): Result<U>
      requires Failure?
    {
      Failure(error)
    }

    function Extract(): T
      requires Success?
    {
      value
    }
  }
}
