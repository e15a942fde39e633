/** The exceptions the ledger throws, and the result type that carries them. */
module Errors {

  datatype Error =
    /** generateId or generateHash met a falsy field (or a null nonce). */
    | FieldsMissing
    /** createFromString met a falsy field in the decoded document. */
    | NotEnoughData
    /** A rebuilt transaction's regenerated id differs from the stored one. */
    | IdMismatch
    /** A rebuilt transaction's signature does not verify. */
    | InvalidTransaction
    /** A block holds a transaction that cannot be turned into text because it is invalid. */
    | UnencodableTransaction
    /** A rebuilt block's regenerated hash differs from the stored one. */
    | HashMismatch
    /** A block's signature does not verify, or one of its transactions is invalid. */
    | InvalidBlock
    /** `create` was handed a predecessor that is not valid. */
    | InvalidPrevBlock

  datatype Result<T> = Ok(value: T) | Fail(error: Error) {
    predicate IsFailure() {
      Fail?
    }

    function PropagateFailure<U>(): Result<U>
      requires Fail?
    {
      Fail(error)
    }

    function Extract(): T
      requires Ok?
    {
      value
    }
  }

  /** The outcome of an operation that returns nothing or throws. */
  datatype Outcome = Pass | Raise(error: Error)

  datatype Option<T> = None | Some(value: T)
}
