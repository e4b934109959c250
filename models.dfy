/**
 * The two tables of the bank ledger: bank accounts and operations.
 * Money is held in integer cents, timestamps as integers.
 */
module Models {
  import opened Outcomes

  datatype AccountType = Checking | Savings

  /** The stored operation type; the endpoints only ever write Deposit and Withdrawal. */
  datatype OperationType = Deposit | Withdrawal | Transfer

  /** A Numeric(12, 2) column holds ten digits before the point, so less than 10^12 cents. */
  const NUMERIC_BOUND: int := 1_000_000_000_000

  /** Column defaults of the account table. */
  const DEFAULT_BALANCE: int := 0
  const DEFAULT_DAILY_LIMIT: int := 100_000
  const DEFAULT_ACCOUNT_TYPE: AccountType := Checking

  /** Width of the description column. */
  const DESCRIPTION_MAX: int := 255

  datatype Account = Account(
    id: int,
    userId: int,
    accountType: AccountType,
    balance: int,
    dailyLimit: int,
    isActive: bool,
    createdAt: int)

  datatype Operation = Operation(
    id: int,
    accountId: int,
    operationType: OperationType,
    amount: int,
    balanceAfter: int,
    description: Option<string>,
    timestamp: int)

  /** The value fits a Numeric(12, 2) column. */
  predicate FitsNumeric(v: int) {
    -NUMERIC_BOUND < v < NUMERIC_BOUND
  }

  /** The (nullable) description fits its String(255) column. */
  predicate FitsDescription(d: Option<string>) {
    d.Some? ==> |d.value| <= DESCRIPTION_MAX
  }

  /** An account row the table can hold. */
  predicate StorableAccount(a: Account) {
    FitsNumeric(a.balance) && FitsNumeric(a.dailyLimit)
  }

  /** An operation row the table can hold. */
  predicate StorableOperation(o: Operation) {
    FitsNumeric(o.amount) && FitsNumeric(o.balanceAfter) && FitsDescription(o.description)
  }

  /** A new account row; the parameters left out take the column defaults. */
  function NewAccountRow(
    id: int, userId: int, createdAt: int,
    accountType: AccountType := DEFAULT_ACCOUNT_TYPE,
    balance: int := DEFAULT_BALANCE,
    dailyLimit: int := DEFAULT_DAILY_LIMIT,
    isActive: bool := true): Account
  {
    Account(id, userId, accountType, balance, dailyLimit, isActive, createdAt)
  }

  /** A row built from the column defaults alone is an active checking account with nothing in it. */
  lemma ColumnDefaults(id: int, userId: int, createdAt: int)
    ensures var a := NewAccountRow(id, userId, createdAt);
      && a.balance == 0 && a.dailyLimit == 100_000 && a.isActive
      && a.accountType == Checking && a.createdAt == createdAt
      && StorableAccount(a)
  {
  }

  /** Sort keys of the two tables. */
  function Timestamp(o: Operation): int { o.timestamp }
  function CreatedAt(a: Account): int { a.createdAt }
}
