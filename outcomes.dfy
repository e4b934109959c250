/** Optional values, the errors a ledger request can end with, and results. */
module Outcomes {

  datatype Option<+T> = None | Some(value: T)

  /** Every way a request to the ledger can be refused. */
  datatype Error =
    | NotFound            // no account has the requested id
    | AccountInactive     // the account exists but was deactivated
    | WrongKind           // the request's operation type does not match the endpoint
    | InsufficientBalance // a withdrawal larger than the balance
    | DailyLimitExceeded  // a withdrawal that would pass the account's daily limit
    | Duplicate           // the user already has an active account of that type
    | AlreadyInactive     // deactivating an account twice
    | ValidationFailed    // a request field outside its allowed range
    | ColumnOverflow      // the store refuses a value wider than its Numeric(12, 2) column

  /** The value a request produces, or the reason it was refused. */
  datatype Result<+T> = Ok(value: T) | Err(error: Error)

  /** A request that produces no value: it passed, or it was refused. */
  datatype Outcome = Pass | Fail(error: Error)
}
