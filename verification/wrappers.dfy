/** Option and Result datatypes, plus the JavaScript truthiness of an optional string,
    shared by every module of the model. */
module Wrappers {

  /** A value that may be absent (`undefined` or `null` in the source). */
  datatype Option<+T> = None | Some(value: T) {
    function GetOr(default: T): T {
      match this
      case Some(v) => v
      case None => default
    }
  }

  /** The error a procedure throws: a plain `Error(message)`, a tRPC error with a code, the
      database refusing a second row under a unique key, or the `TransactionRollbackError` that
      drizzle's `trx.rollback()` throws to abort its transaction. */
  datatype Error =
    | Thrown(message: string)
    | TrpcError(code: string, message: string)
    | UniqueViolation(key: string)
    | TransactionRollback

  /** Which version of a procedure with a known fault runs: the code as written, or the
      behaviour its authors evidently intended. */
  datatype Variant = AsWritten | Corrected

  /** Either a value or the error that was thrown instead. */
  datatype Result<+T> = Ok(value: T) | Err(error: Error) {
    predicate IsFailure() {
      Err?
    }

    function PropagateFailure<U>(): Result<U>
      requires Err?
    {
      Err(error)
    }

    function Extract(): T
      requires Ok?
    {
      value
    }
  }

  /** `if (s)` on a `string | undefined`: false for an absent or empty string. */
  predicate Truthy(s: Option<string>) {
    s.Some? && s.value != ""
  }
}
