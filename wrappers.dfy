/** Option and Result, used for the soft "no result" outcomes and for the
    exceptions the component raises. */
module Wrappers {

  datatype Option<+T> = None | Some(value: T)

  datatype Result<+T, +E> = Success(value: T) | Failure(error: E)

  /** The failures the component signals; the Java code throws
      IllegalArgumentException (or lets a NullPointerException escape) for each. */
  datatype Error =
    /** Fewer than four '.'-separated components (the count is in the message). */
    | MalformedAssertion(components: nat)
    /** A component is not decodable text or JSON, or a claim is missing or of the wrong type. */
    | InvalidAssertionEncoding
    /** The audience of the assertion is not a URL. */
    | InvalidOriginUrl
    /** A lookup while the process-wide table is still unallocated (a null dereference). */
    | NoRegistry
}
