/**
 The two shapes the C# collections give their values in this model: a
 reference that may be null, and the result of an operation that may end in
 an exception instead of returning.
 */
module Wrappers {

  /** A C# reference that may be null. */
  datatype Nullable<+T> = Null | NonNull(value: T)

  /** Either the value an operation returned, or the exception it raised. */
  datatype Result<+R, +E> = Success(value: R) | Failure(error: E)
}
