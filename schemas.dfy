/**
 * Request schemas of the ledger endpoints: the field ranges, defaults and
 * rounding a request passes before any handler sees it.
 *
 * Validated requests carry money in cents. The raw inputs a client sends
 * carry money in thousandths of a unit ("mills"), which is just fine enough
 * to show what rounding to two decimals does after the range checks.
 */
module Schemas {
  import opened Outcomes
  import Models

  /** The operation type a request may name: there is no transfer endpoint. */
  datatype RequestType = Deposit | Withdrawal

  /** Largest operation amount (1,000,000.00) and daily limit (10,000.00), in cents. */
  const MAX_AMOUNT: int := 100_000_000
  const MAX_DAILY_LIMIT: int := 1_000_000

  /** Largest number of rows a statement query may ask for. */
  const MAX_STATEMENT_LIMIT: int := 500

  /** The stored operation type a request type is written as. */
  function StoredType(t: RequestType): (k: Models.OperationType)
    ensures k != Models.Transfer
    ensures k == Models.Deposit <==> t == Deposit
  {
    match t
    case Deposit => Models.Deposit
    case Withdrawal => Models.Withdrawal
  }

  // ---------------------------------------------------------------------------
  // Validated requests

  datatype AccountCreate = AccountCreate(
    userId: int,
    accountType: Models.AccountType,
    initialBalance: int,
    dailyLimit: int)

  predicate ValidAccountCreate(r: AccountCreate): (ok: bool)
    ensures ok ==> AdmissibleAccountCreate(r) && 0 < r.dailyLimit
  {
    && r.userId > 0
    && r.initialBalance >= 0
    && 0 < r.dailyLimit <= MAX_DAILY_LIMIT
  }

  datatype OperationCreate = OperationCreate(
    accountId: int,
    operationType: RequestType,
    amount: int,
    description: Option<string>)

  predicate ValidOperationCreate(r: OperationCreate): (ok: bool)
    ensures ok ==> AdmissibleOperationCreate(r) && 0 < r.amount
  {
    && r.accountId > 0
    && 0 < r.amount <= MAX_AMOUNT
    && Models.FitsDescription(r.description)
  }

  /**
   * What the store needs of an account request, and what the validators
   * guarantee whether or not they refuse a value that rounds to 0.00.
   */
  predicate AdmissibleAccountCreate(r: AccountCreate) {
    && r.initialBalance >= 0
    && 0 <= r.dailyLimit <= MAX_DAILY_LIMIT
  }

  /** What the store needs of an operation request, a zero amount included. */
  predicate AdmissibleOperationCreate(r: OperationCreate) {
    && 0 <= r.amount <= MAX_AMOUNT
    && Models.FitsDescription(r.description)
  }

  datatype StatementQuery = StatementQuery(limit: int, offset: int)

  const DEFAULT_STATEMENT_QUERY: StatementQuery := StatementQuery(50, 0)

  predicate ValidStatementQuery(q: StatementQuery) {
    0 < q.limit <= MAX_STATEMENT_LIMIT && q.offset >= 0
  }

  /** The default statement query is itself a valid one. */
  lemma DefaultStatementQueryIsValid()
    ensures ValidStatementQuery(DEFAULT_STATEMENT_QUERY)
  {
  }

  // ---------------------------------------------------------------------------
  // Rounding and range checks on raw amounts (in mills)

  /** Rounds a non-negative amount in mills to the nearest cent, halves upwards. */
  function RoundToCents(mills: nat): (cents: nat)
    ensures -5 <= mills - 10 * cents < 5
  {
    (mills + 5) / 10
  }

  /** On amounts that are already whole cents, rounding changes nothing. */
  lemma RoundWholeCents(cents: nat)
    ensures RoundToCents(10 * cents) == cents
  {
    assert (10 * cents + 5) / 10 == cents;
  }

  /**
   * The check on a strictly positive field bounded by maxCents, as the schema
   * writes it: the range is checked on the raw value, and only then rounded.
   */
  function ParsePositiveAsWritten(mills: int, maxCents: nat): (r: Result<int>)
    ensures r.Ok? <==> 0 < mills <= 10 * maxCents
    ensures r.Ok? ==> 0 <= r.value <= maxCents
  {
    if mills <= 0 || mills > 10 * maxCents then Err(ValidationFailed)
    else Ok(RoundToCents(mills))
  }

  /** A positive amount below half a cent passes the check and becomes zero. */
  lemma PositiveCheckAdmitsZero()
    ensures ParsePositiveAsWritten(1, MAX_AMOUNT) == Ok(0)
    ensures ParsePositiveAsWritten(4, MAX_DAILY_LIMIT) == Ok(0)
  {
  }

  /** The same check with the range tested on the rounded value: zero is refused. */
  function ParsePositive(mills: int, maxCents: nat): (r: Result<int>)
    ensures r.Ok? <==> 5 <= mills <= 10 * maxCents
    ensures r.Ok? ==> 0 < r.value <= maxCents
    ensures r.Ok? ==> -5 <= mills - 10 * r.value < 5
  {
    if mills <= 0 || mills > 10 * maxCents then Err(ValidationFailed)
    else
      var cents := RoundToCents(mills);
      if cents == 0 then Err(ValidationFailed) else Ok(cents)
  }

  /** The corrected check differs from the written one only where the latter yields zero. */
  lemma ParsePositiveAgreesAwayFromZero(mills: int, maxCents: nat)
    ensures ParsePositive(mills, maxCents).Ok? ==>
      ParsePositiveAsWritten(mills, maxCents) == ParsePositive(mills, maxCents)
    ensures ParsePositiveAsWritten(mills, maxCents) != Ok(0) ==>
      ParsePositiveAsWritten(mills, maxCents) == ParsePositive(mills, maxCents)
  {
  }

  /** The check on a non-negative field (the initial balance), with no upper bound. */
  function ParseNonNegative(mills: int): (r: Result<int>)
    ensures r.Ok? <==> mills >= 0
    ensures r.Ok? ==> r.value >= 0 && -5 <= mills - 10 * r.value < 5
  {
    if mills < 0 then Err(ValidationFailed) else Ok(RoundToCents(mills))
  }

  // ---------------------------------------------------------------------------
  // Raw requests and their validation

  /** A create-account request as sent; absent fields take their defaults. */
  datatype AccountCreateInput = AccountCreateInput(
    userId: int,
    accountType: Option<Models.AccountType>,
    initialBalance: Option<int>,
    dailyLimit: Option<int>)

  /** An operation request as sent; the operation type may name any stored type. */
  datatype OperationCreateInput = OperationCreateInput(
    accountId: int,
    operationType: Models.OperationType,
    amount: int,
    description: Option<string>)

  function ValidateAccountCreate(input: AccountCreateInput): (r: Result<AccountCreate>)
    ensures r.Ok? <==>
      && input.userId > 0
      && (input.initialBalance.Some? ==> input.initialBalance.value >= 0)
      && (input.dailyLimit.Some? ==> 5 <= input.dailyLimit.value <= 10 * MAX_DAILY_LIMIT)
    ensures r.Err? ==> r.error == ValidationFailed
    ensures r.Ok? ==> ValidAccountCreate(r.value) && r.value.userId == input.userId
    ensures r.Ok? ==>
      r.value.accountType == (if input.accountType.Some? then input.accountType.value else Models.DEFAULT_ACCOUNT_TYPE)
    ensures r.Ok? && input.initialBalance.None? ==> r.value.initialBalance == Models.DEFAULT_BALANCE
    ensures r.Ok? && input.initialBalance.Some? ==> -5 <= input.initialBalance.value - 10 * r.value.initialBalance < 5
    ensures r.Ok? && input.dailyLimit.None? ==> r.value.dailyLimit == Models.DEFAULT_DAILY_LIMIT
    ensures r.Ok? && input.dailyLimit.Some? ==> -5 <= input.dailyLimit.value - 10 * r.value.dailyLimit < 5
  {
    if input.userId <= 0 then Err(ValidationFailed)
    else
      var accountType := if input.accountType.Some? then input.accountType.value else Models.DEFAULT_ACCOUNT_TYPE;
      var initial := if input.initialBalance.Some? then ParseNonNegative(input.initialBalance.value) else Ok(Models.DEFAULT_BALANCE);
      var limit := if input.dailyLimit.Some? then ParsePositive(input.dailyLimit.value, MAX_DAILY_LIMIT) else Ok(Models.DEFAULT_DAILY_LIMIT);
      if initial.Err? || limit.Err? then Err(ValidationFailed)
      else Ok(AccountCreate(input.userId, accountType, initial.value, limit.value))
  }

  function ValidateOperationCreate(input: OperationCreateInput): (r: Result<OperationCreate>)
    ensures r.Ok? <==>
      && input.accountId > 0
      && input.operationType != Models.Transfer
      && 5 <= input.amount <= 10 * MAX_AMOUNT
      && Models.FitsDescription(input.description)
    ensures r.Err? ==> r.error == ValidationFailed
    ensures r.Ok? ==> ValidOperationCreate(r.value)
    ensures r.Ok? ==>
      && r.value.accountId == input.accountId
      && StoredType(r.value.operationType) == input.operationType
      && r.value.description == input.description
      && -5 <= input.amount - 10 * r.value.amount < 5
  {
    if input.accountId <= 0 || input.operationType == Models.Transfer
       || !Models.FitsDescription(input.description)
    then Err(ValidationFailed)
    else
      var amount := ParsePositive(input.amount, MAX_AMOUNT);
      if amount.Err? then Err(ValidationFailed)
      else
        var t := if input.operationType == Models.Deposit then Deposit else Withdrawal;
        Ok(OperationCreate(input.accountId, t, amount.value, input.description))
  }

  /** The raw form of a validated request, money written back in mills. */
  function AccountCreateInputOf(r: AccountCreate): AccountCreateInput {
    AccountCreateInput(r.userId, Some(r.accountType), Some(10 * r.initialBalance), Some(10 * r.dailyLimit))
  }

  function OperationCreateInputOf(r: OperationCreate): OperationCreateInput {
    OperationCreateInput(r.accountId, StoredType(r.operationType), 10 * r.amount, r.description)
  }

  /** Every valid create request is what validation makes of its own raw form. */
  lemma AccountCreateRoundTrip(r: AccountCreate)
    requires ValidAccountCreate(r)
    ensures ValidateAccountCreate(AccountCreateInputOf(r)) == Ok(r)
  {
    RoundWholeCents(r.initialBalance);
    RoundWholeCents(r.dailyLimit);
  }

  /** Every valid operation request is what validation makes of its own raw form. */
  lemma OperationCreateRoundTrip(r: OperationCreate)
    requires ValidOperationCreate(r)
    ensures ValidateOperationCreate(OperationCreateInputOf(r)) == Ok(r)
  {
    RoundWholeCents(r.amount);
  }
}
