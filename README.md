# Bank-account ledger: a verified model

This project models the core of a small banking service: a FastAPI and SQLAlchemy application. The service keeps:

- **bank accounts**: an owner, a type (checking or savings), a balance, a daily withdrawal limit, an active flag and a creation time;
- **operations**: an append-only history of deposits and withdrawals. Each row stores the account's balance after it (`balance_after`).

The model covers these endpoints:

- Accounts: create, list, look up and soft-deactivate.
- Operations: deposit, withdraw, read an account's statement and list operations.
- Request validation in the schemas, and the column types and defaults of the ORM models.

Money is integer cents. A `Numeric(12, 2)` column holds magnitudes below 10^12 cents. Raw request amounts are in thousandths of the currency unit (mills), so the schema's rounding to two decimals can be stated exactly.

The files:

| file | contents |
|---|---|
| `outcomes.dfy` | `Option`, `Result`, `Outcome` and the error kinds the endpoints raise |
| `models.dfy` | account and operation rows, column bounds, column defaults |
| `schemas.dfy` | request schemas, their validators and rounding, round trips |
| `queries.dfy` | newest-first ordering (a verified insertion sort) and OFFSET/LIMIT paging |
| `store.dfy` | the stored state and the invariant tying balances to the history |
| `operations.dfy` | eligibility, the daily limit, deposit, withdrawal, statement, listing |
| `accounts.dfy` | account creation, deactivation, lookup, listing |
| `ledger.dfy` | a `Ledger` class whose methods update the tables in place, and lemmas over any sequence of requests |

Each endpoint that changes the database is modelled twice:

- as a pure transition `State -> (State, Result)`, with a contract that lists every error case and the whole new state;
- as a method of `Ledger.Ledger`, whose `ensures` ties it to that transition.

The invariant `Store.Consistent` says:

- every balance equals the account's opening balance plus the net flow of its operations;
- every `balance_after` equals the running balance at that point of the history;
- all rows fit their columns and ids are fresh;
- a user has at most one active account of each type.

The invariant asks only that amounts and daily limits are not negative, because the validators as written let a value that rounds to 0.00 through (see Findings). Every transition preserves this invariant for any request the validators as written accept, and so does any sequence of such requests. A second invariant, `Store.PositiveAmounts`, says that every amount and daily limit is strictly positive. It holds for every request that meets the schemas' declared constraints, which the corrected validators guarantee. From the invariant, `Store.BalanceIsLatestSnapshot` derives that an account's balance is the `balance_after` of its latest operation.

Behaviour of the code that the model keeps, including where it departs from what its docstrings suggest:

- The statement endpoint refuses an inactive account, because it goes through the same eligibility check as deposits.
- The statement endpoint takes `limit` and `offset` directly. The `StatementQuery` schema, with its upper bound of 500, is declared but never applied, so larger limits are accepted.
- The withdrawn-today sum counts every withdrawal with a timestamp at or after midnight UTC. It has no upper bound.
- The account listing builds `.offset().limit().order_by()`. SQL still orders before it pages, so the model sorts first.
- A filter id of `0` is falsy in Python, so it means "no filter".
- An empty description string is falsy, so it falls back to the default text ("Depósito" or "Saque").

## Model

| member | source | states |
|---|---|---|
| Models.ColumnDefaults | src/models.py:36-43 | a new account row defaults to balance 0, daily limit 1000.00, type checking, active |
| Schemas.StoredType | src/api/schemas.py:12-15 | a request's operation type maps onto the stored enum, never to transfer; deposit maps to deposit and only it |
| Schemas.DefaultStatementQueryIsValid | src/api/schemas.py:76-79 | the statement query defaults (limit 50, offset 0) satisfy its own bounds |
| Schemas.RoundToCents | src/api/schemas.py:60 | rounding to two decimals lands within half a cent of the input |
| Schemas.RoundWholeCents | src/api/schemas.py:60 | rounding leaves an amount with whole cents unchanged |
| Schemas.ParsePositiveAsWritten | src/api/schemas.py:53-60 | the amount check as written: accepted iff 0 < v <= maximum, checked before rounding, so the result can be 0 |
| Schemas.PositiveCheckAdmitsZero | src/api/schemas.py:53-60 | amount 0.001 is accepted and becomes 0.00; daily limit 0.004 is accepted and becomes 0.00 |
| Schemas.ParsePositive | src/api/schemas.py:53-60 | corrected check: accepted iff the value is positive after rounding and at most the maximum before rounding (1000000.004 is refused); the result is in (0, maximum] and within half a cent of the input |
| Schemas.ParsePositiveAgreesAwayFromZero | src/api/schemas.py:53-60 | the corrected and the as-written checks agree whenever the as-written one does not yield 0 |
| Schemas.ParseNonNegative | src/api/schemas.py:22 | the initial balance is accepted iff it is >= 0, and is rounded to cents |
| Schemas.ValidateAccountCreate | src/api/schemas.py:18-30 | accepted iff user_id > 0, initial balance >= 0, and the daily limit is positive after rounding and at most 10000.00 before rounding; absent fields take the defaults (checking, 0.00, 1000.00); each rounded value lies within half a cent of its input; the result satisfies the schema |
| Schemas.ValidateOperationCreate | src/api/schemas.py:46-60 | accepted iff account_id > 0, the type is deposit or withdrawal, the amount is positive after rounding and at most 1000000.00 before rounding, and the description has at most 255 characters; the result satisfies the schema, keeps the id, type and description, and its amount lies within half a cent of the input |
| Schemas.ValidAccountCreate | src/api/schemas.py:18-23 | a request that meets the declared field constraints is one the store accepts, with a positive daily limit |
| Schemas.ValidOperationCreate | src/api/schemas.py:46-51 | a request that meets the declared field constraints is one the store accepts, with a positive amount |
| Schemas.AccountCreateRoundTrip | src/api/schemas.py:18-30 | every valid account request, written back as input, validates to itself |
| Schemas.OperationCreateRoundTrip | src/api/schemas.py:46-60 | every valid operation request, written back as input, validates to itself |
| Queries.InsertDesc | src/api/endpoints/operations.py:165 | inserting into a newest-first sequence keeps it newest-first |
| Queries.InsertDescPermutes | src/api/endpoints/operations.py:165 | insertion adds exactly the one element |
| Queries.SortDesc | src/api/endpoints/operations.py:165 | ORDER BY key DESC: the result is sorted newest-first and is a permutation of the input |
| Queries.Page | src/api/endpoints/operations.py:166-167 | OFFSET/LIMIT: at most limit rows, the rows from offset on, in order; empty past the end |
| Queries.PageOfSorted | src/api/endpoints/operations.py:165-167 | a page of a sorted result is sorted and a sub-multiset of it |
| Queries.PagesConcatenate | src/api/endpoints/operations.py:166-167 | two consecutive pages make up the page of their combined size |
| Queries.OrderedPage | src/api/endpoints/operations.py:165-167 | ORDER BY DESC, OFFSET, LIMIT: the result is exactly the slice [offset, offset + limit) of some newest-first permutation of the input, so it is sorted, has min(limit, n - offset) rows, and with offset 0 and enough room holds every input row |
| Queries.OrderedPagesConcatenate | src/api/endpoints/operations.py:165-167 | consecutive ordered pages make up the ordered page of their combined size, for the one order among equal keys that the model keeps across queries |
| Queries.SortedUnique | src/api/endpoints/operations.py:165 | when no two rows share a key, ORDER BY key DESC has exactly one result: any two descending permutations of the rows are equal |
| Queries.DistinctPagesConcatenate | src/api/endpoints/operations.py:165-167 | when no two rows share a key, any two consecutive pages the database may return make up any page of their combined size, so paging loses and repeats nothing |
| Store.NetFlowAppend | src/api/endpoints/operations.py:76-77 | one more operation changes an account's net flow by exactly its signed amount |
| Store.LatestBalanceAppend | src/api/endpoints/operations.py:84 | the account's latest snapshot after an append is the new row's balance_after when it is the account's |
| Store.EmptyIsConsistent | src/models.py:30-64 | the empty database satisfies the ledger invariant |
| Store.LatestIsReplay | src/api/endpoints/operations.py:76-89 | where snapshots chain, the latest balance_after equals the opening balance plus the net flow |
| Store.BalanceIsLatestSnapshot | src/api/endpoints/operations.py:128-140 | in a consistent store each balance equals its latest operation's balance_after, or the opening balance when there is none |
| Store.ChainAppend | src/api/endpoints/operations.py:80-88 | appending a row whose balance_after extends the running balance keeps the snapshots chained |
| Store.ChainNewAccount | src/api/endpoints/accounts.py:40-46 | opening an account does not disturb the snapshots of the others |
| Store.NetFlowUntouched | src/api/endpoints/accounts.py:40-46 | an account no operation references has net flow zero |
| Operations.CheckEligible | src/api/endpoints/operations.py:13-32 | Ok iff the account exists and is active; NotFound iff missing; AccountInactive iff present but inactive |
| Operations.WithdrawnTodayBounds | src/api/endpoints/operations.py:40-47 | the withdrawn-today sum is never negative when no amount is, and is 0 when no withdrawal of the account falls on the day (the `or 0.0`) |
| Operations.WithdrawnTodayConcat | src/api/endpoints/operations.py:40-47 | the withdrawn-today sum over two stretches of history is the sum of both |
| Operations.WithdrawnTodayAppend | src/api/endpoints/operations.py:40-46 | only the account's own withdrawals at or after the day's start add to the sum |
| Operations.CheckDailyLimit | src/api/endpoints/operations.py:49-53 | passes iff withdrawn today plus the amount does not exceed the daily limit |
| Operations.DescriptionOr | src/api/endpoints/operations.py:85 | the given description unless missing or empty, otherwise the default text |
| Operations.StoredDescriptionFits | src/models.py:61 | the stored description always fits its 255-character column |
| Operations.Deposit | src/api/endpoints/operations.py:56-92 | WrongKind for a non-deposit request, then NotFound or AccountInactive, then ColumnOverflow iff the new balance does not fit; on success the balance grows by the amount and one row is appended with balance_after = new balance; refusals leave the store unchanged |
| Operations.Withdraw | src/api/endpoints/operations.py:95-143 | WrongKind, then eligibility, then InsufficientBalance iff balance < amount, then DailyLimitExceeded iff the day's total would pass the limit; on success the balance drops by the amount and one row is appended |
| Operations.AppendKeepsAccountsWellFormed | src/api/endpoints/operations.py:76-77 | moving one balance to a non-negative storable snapshot keeps every account row well formed |
| Operations.AppendKeepsOperationsWellFormed | src/api/endpoints/operations.py:80-88 | the appended row references an account and has a fresh, increasing id |
| Operations.AppendKeepsBalancesReplay | src/api/endpoints/operations.py:76-88 | after the append every balance is still the opening balance plus the net flow |
| Operations.AppendKeepsUniqueActive | src/api/endpoints/operations.py:76-77 | changing a balance does not affect the one-active-account-per-type rule |
| Operations.AppendPreservesConsistency | src/api/endpoints/operations.py:76-89 | recording a deposit or withdrawal that moves the balance by its amount keeps the whole invariant |
| Operations.DepositPreservesConsistency | src/api/endpoints/operations.py:56-92 | every deposit on a consistent store leaves it consistent |
| Operations.WithdrawPreservesConsistency | src/api/endpoints/operations.py:95-143 | every withdrawal on a consistent store leaves it consistent, so balances never go negative |
| Operations.DepositKeepsPositiveAmounts | src/api/endpoints/operations.py:56-92 | a deposit that meets the declared schema records only a positive amount |
| Operations.WithdrawKeepsPositiveAmounts | src/api/endpoints/operations.py:95-143 | a withdrawal that meets the declared schema records only a positive amount |
| Operations.WithdrawKeepsDailyLimit | src/api/endpoints/operations.py:126 | after a successful withdrawal made today, the day's total is within the account's daily limit |
| Operations.OfAccount | src/api/endpoints/operations.py:164 | an operation is in the account's history iff it is in the table and belongs to the account |
| Operations.OfAccountMultiplicity | src/api/endpoints/operations.py:164 | the history holds each of the account's operations exactly as often as the table does, and no other operation |
| Operations.OfAccountAllOwn | src/api/endpoints/operations.py:162-174 | when every operation belongs to the account, its history and its count are the whole sequence |
| Operations.History | src/api/endpoints/operations.py:162-164 | the rows the statement query keeps are the account's own |
| Operations.GetStatement | src/api/endpoints/operations.py:146-180 | Ok iff the account is eligible, else that check's error; the page is the slice [offset, offset + limit) of the account's history in newest-first order, so it holds min(limit, total - offset) of the account's rows; the total counts all of them; with offset 0 and enough room the page is the whole history |
| Operations.ZeroLimitRefusesPositiveWithdrawal | src/api/endpoints/operations.py:49-53 | on a consistent store, an account with a daily limit of 0.00 refuses every withdrawal of a positive amount |
| Operations.ZeroLimitAdmitsZeroWithdrawal | src/api/endpoints/operations.py:49-53 | a withdrawal of 0.001, accepted and rounded to 0.00, passes a daily limit of 0.00 |
| Operations.StatementIgnoresQuerySchema | src/api/schemas.py:76-79 | the statement endpoint does not apply StatementQuery: a limit of 501, which the schema refuses, still yields a statement |
| Operations.StatementPagesConcatenate | src/api/endpoints/operations.py:165-167 | consecutive statement pages make up the page of their combined size, for the one order among equal timestamps that the model keeps across queries |
| Operations.Select | src/api/endpoints/operations.py:199-205 | exactly the operations passing the optional account and type filters |
| Operations.SelectMultiplicity | src/api/endpoints/operations.py:199-205 | the filtered rows hold each selected operation exactly as often as the table does, and no other operation |
| Operations.ListedOperations | src/api/endpoints/operations.py:199-205 | the rows the listing's WHERE clauses keep all pass the filters |
| Operations.ListOperations | src/api/endpoints/operations.py:183-212 | the slice [skip, skip + limit) of the filtered rows in newest-first order: min(limit, n - skip) rows, each passing the filters; with skip 0 and enough room, all of them |
| Operations.ListingPagesConcatenate | src/api/endpoints/operations.py:207 | consecutive listing pages make up the page of their combined size, for the one order among equal timestamps that the model keeps across queries |
| Accounts.CreateAccount | src/api/endpoints/accounts.py:12-52 | Duplicate iff the user already has an active account of that type; ColumnOverflow iff a value does not fit its column; otherwise a new active row with the next id, the requested fields and the current time; refusals leave the store unchanged |
| Accounts.Deactivate | src/api/endpoints/accounts.py:104-132 | succeeds iff the account exists and is active; NotFound iff missing, AlreadyInactive iff inactive; on success only is_active is cleared |
| Accounts.CreateAddsOneAccount | src/api/endpoints/accounts.py:40-50 | a created account has an id no account had, and is the one row added |
| Accounts.CreateKeepsPositiveAmounts | src/api/endpoints/accounts.py:12-52 | an account created from a request that meets the declared schema has a positive daily limit |
| Accounts.DeactivateKeepsPositiveAmounts | src/api/endpoints/accounts.py:104-132 | deactivation changes no amount or limit |
| Accounts.CreatePreservesConsistency | src/api/endpoints/accounts.py:12-52 | account creation keeps the invariant, including at most one active account per user and type |
| Accounts.DeactivatePreservesConsistency | src/api/endpoints/accounts.py:104-132 | deactivation keeps the invariant |
| Accounts.GetAccount | src/api/endpoints/accounts.py:82-101 | Ok with the row iff the id exists, active or not; NotFound otherwise |
| Accounts.Rows | src/api/endpoints/accounts.py:69 | the account table scanned up to a bound: every row with an id below the bound is there, and every row is a row of the table |
| Accounts.RowsBelow | src/api/endpoints/accounts.py:69 | the scan holds only rows whose ids lie below the bound |
| Accounts.RowsMultiplicity | src/api/endpoints/accounts.py:69 | when every row is stored under its own id, the scan holds each row with an id below the bound exactly once, and no other row |
| Accounts.ListedRows | src/api/endpoints/accounts.py:69-72 | the rows the listing's WHERE clauses keep are active table rows of the requested user |
| Accounts.SelectListed | src/api/endpoints/accounts.py:69-72 | exactly the active rows that pass the optional user filter |
| Accounts.SelectListedMultiplicity | src/api/endpoints/accounts.py:69-72 | the listed rows hold each active row of the requested user exactly as often as the scan does, and no other row |
| Accounts.ListAccounts | src/api/endpoints/accounts.py:55-79 | the slice [skip, skip + limit) of the listed rows in newest-first order: min(limit, n - skip) rows, each active and of the requested user; with skip 0 and enough room, all of them |
| Accounts.ListAccountsComplete | src/api/endpoints/accounts.py:69-74 | when all listed rows fit in the limit, every active account of the requested user appears in the first page |
| Accounts.AccountPagesConcatenate | src/api/endpoints/accounts.py:74 | consecutive listing pages make up the page of their combined size, for the one order among equal creation times that the model keeps across queries |
| Ledger.Ledger.constructor | src/models.py:30-64 | a fresh ledger is empty and consistent |
| Ledger.Ledger.CreateAccount | src/api/endpoints/accounts.py:12-52 | updates the tables in place exactly as Accounts.CreateAccount and keeps the invariant |
| Ledger.Ledger.Deactivate | src/api/endpoints/accounts.py:104-132 | updates the account table in place exactly as Accounts.Deactivate and keeps the invariant |
| Ledger.Ledger.Deposit | src/api/endpoints/operations.py:56-92 | updates balance and history in place exactly as Operations.Deposit and keeps the invariant |
| Ledger.Ledger.Withdraw | src/api/endpoints/operations.py:95-143 | updates balance and history in place exactly as Operations.Withdraw and keeps the invariant |
| Ledger.Handle | src/api/endpoints/operations.py:56-143 | one request as one transaction; a refused request changes nothing; history only grows, by at most one row |
| Ledger.Run | src/api/endpoints/operations.py:88-89 | requests handled one after another: history only grows, by at most one row per request |
| Ledger.EvolvesTransitive | src/api/endpoints/accounts.py:129-130 | the "only grows, deactivation is final" relation composes |
| Ledger.HandlePreservesConsistency | src/api/endpoints/operations.py:56-143 | every request the validators as written accept keeps the invariant |
| Ledger.HandleKeepsPositiveAmounts | src/api/endpoints/operations.py:56-143 | every request that meets the declared schemas keeps amounts and limits positive |
| Ledger.CreateEvolves | src/api/endpoints/accounts.py:40-50 | creation only adds a row |
| Ledger.DeactivateEvolves | src/api/endpoints/accounts.py:129 | deactivation only clears is_active |
| Ledger.DepositEvolves | src/api/endpoints/operations.py:77-88 | a deposit only appends history and changes a balance |
| Ledger.WithdrawEvolves | src/api/endpoints/operations.py:129-139 | a withdrawal only appends history and changes a balance |
| Ledger.HandleEvolves | src/api/endpoints/accounts.py:129-130 | any one request keeps history append-only, owner, type, limit and creation time fixed, and deactivation final |
| Ledger.RunPreservesConsistency | src/api/endpoints/operations.py:76-89 | any sequence of requests the validators as written accept keeps the invariant, so balances always equal the latest snapshot |
| Ledger.RunKeepsPositiveAmounts | src/api/schemas.py:23-60 | any sequence of requests that meet the declared schemas keeps every amount and daily limit positive |
| Ledger.RunEvolves | src/api/endpoints/accounts.py:129-130 | over any sequence of requests history only grows and a deactivated account is never reactivated |

## Left out

- HTTP status codes, messages, routing and response serialisation are not modelled. Errors are the `Outcomes.Error` kinds. The routers are not mounted in `src/api/routes.py`, and this model does not depend on that.
- Bearer-token validation (`src/api/deps.py`), the items endpoints and the `operations` back-reference on accounts are not part of this model.
- Sessions, `commit` and `refresh` are treated as one atomic step per request. Concurrent requests are left out, and so is the lost update two concurrent withdrawals can cause (both read the same balance), because the model runs one request at a time.
- Floating point: amounts are exact cents. `Schemas.RoundToCents` rounds a tie at half a cent (such as 0.005) upward, where Python's `round` on a binary float may go either way.
- The clock (`datetime.utcnow`) becomes the parameters `now` and `dayStart` of each request. Times are integers.
- Primary keys are counters starting at 1 that the store hands out. The database's own sequence is not modelled.
- `scalar_one_or_none` raising for more than one row is left out. Under `Store.UniqueActive` no lookup in the model can find two rows.
- Operations.GetStatement: limit and offset are `nat`. What the database does with negative values is engine-specific and not modelled.
- Operations.ListOperations: skip and limit are `nat`, for the same reason. The order among rows with equal timestamps is unspecified.
- Operations.StatementPagesConcatenate, Operations.ListingPagesConcatenate, Accounts.AccountPagesConcatenate and Queries.OrderedPagesConcatenate hold for the one order among equal keys that `Queries.SortDesc` fixes and every query of the model reuses. ORDER BY in the source has no tie-breaker, so the database may order tied rows differently in two queries, and paging may then repeat one tied row and skip another. For rows with distinct keys, `Queries.DistinctPagesConcatenate` shows paging is lossless whatever order the database picks.
- Accounts.ListAccounts: skip and limit are `nat`. The listing scans ids below a bound `nextId` that the caller passes (the store's next account id), and the order among equal creation times is unspecified.
- Operations.Deposit and Accounts.CreateAccount: the `ColumnOverflow` refusal follows `Numeric(12, 2)`. SQLite does not enforce it; a strict engine does.
- Schemas.ValidateAccountCreate: validates the daily limit with the corrected `Schemas.ParsePositive` (see Findings), so a limit that rounds to 0.00 is refused rather than accepted.
- Schemas.ValidateOperationCreate: validates the amount with the corrected `Schemas.ParsePositive` (see Findings), so an amount that rounds to 0.00 is refused rather than accepted.
- Default query arguments are not modelled: callers pass every value. These are limit 50 and offset 0 for the statement (src/api/endpoints/operations.py:149-150), skip 0 and limit 100 for the operation listing (src/api/endpoints/operations.py:187-188), and skip 0 and limit 50 for the account listing (src/api/endpoints/accounts.py:58-59).
- Transfer operations exist only in the stored enum: no endpoint creates one, and they move no balance.

## Findings

| source | as written | input that shows it | evidently intended | confidence | as-written member | corrected member |
|---|---|---|---|---|---|---|
| src/api/schemas.py:53-60 | the amount validator checks `v <= 0` before `round(v, 2)` | amount 0.001 passes and is stored as 0.00, so a zero deposit or withdrawal is recorded | an accepted amount is positive after rounding | not executed; high | Schemas.PositiveCheckAdmitsZero | Schemas.ParsePositive |
| src/api/schemas.py:23-30 | `gt=0` on daily_limit is checked before the validator rounds | daily_limit 0.004 passes and becomes a limit of 0.00, which refuses every withdrawal of a positive amount (a withdrawal of 0.001, stored as 0.00, still passes) | an accepted daily limit is positive after rounding | not executed; high | Schemas.PositiveCheckAdmitsZero | Schemas.ParsePositive |
