/** Results of store operations; each source error class is one constructor. */
module Errors {
  import opened KeyCodec
  import opened Reference

  datatype Expectation = RevisionEqualsExpected(revision: nat) | ExistsExpected | NotExistsExpected

  datatype Error =
    | Corruption
    | InvalidInput
    | InvalidRequest
    | ResponseTooLarge
    | Conflict(key: DocumentKey, expected: Expectation, actual: ObservedState)

  datatype Result<+T> = Ok(value: T) | Err(error: Error)
}
