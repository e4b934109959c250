/**
 * The ledger engine of the operations endpoints: the eligibility check, the
 * daily withdrawal limit, deposit and withdrawal as transitions of the
 * store, and the read-only statement and operation listing.
 */
module Operations {
  import opened Outcomes
  import opened Models
  import opened Queries
  import opened Store
  import Schemas

  // ---------------------------------------------------------------------------
  // Eligibility

  /** The account exists and is active. */
  predicate Eligible(accounts: map<int, Account>, accountId: int) {
    accountId in accounts && accounts[accountId].isActive
  }

  /** Looks an account up for a ledger request: it must exist and be active. */
  function CheckEligible(accounts: map<int, Account>, accountId: int): (r: Result<Account>)
    ensures r.Ok? <==> Eligible(accounts, accountId)
    ensures r.Ok? ==> r.value == accounts[accountId]
    ensures r == Err(NotFound) <==> accountId !in accounts
    ensures r == Err(AccountInactive) <==> accountId in accounts && !accounts[accountId].isActive
  {
    if accountId !in accounts then Err(NotFound)
    else if !accounts[accountId].isActive then Err(AccountInactive)
    else Ok(accounts[accountId])
  }

  // ---------------------------------------------------------------------------
  // Daily withdrawal limit

  /** The operation is one of the account's withdrawals made since the start of the day. */
  predicate CountsToday(o: Operation, accountId: int, dayStart: int) {
    o.accountId == accountId && o.operationType == Withdrawal && o.timestamp >= dayStart
  }

  /** The sum of the account's withdrawals since dayStart, or 0 when there are none. */
  function WithdrawnToday(ops: seq<Operation>, accountId: int, dayStart: int): int {
    if ops == [] then 0
    else
      var last := ops[|ops| - 1];
      WithdrawnToday(ops[..|ops| - 1], accountId, dayStart) + (if CountsToday(last, accountId, dayStart) then last.amount else 0)
  }

  /**
   * The day's total is never negative when no amount is, and it is 0 on a day
   * without withdrawals from the account.
   */
  lemma {:induction false} WithdrawnTodayBounds(ops: seq<Operation>, accountId: int, dayStart: int)
    ensures (forall i :: 0 <= i < |ops| ==> 0 <= ops[i].amount) ==> 0 <= WithdrawnToday(ops, accountId, dayStart)
    ensures (forall i :: 0 <= i < |ops| ==> !CountsToday(ops[i], accountId, dayStart)) ==> WithdrawnToday(ops, accountId, dayStart) == 0
  {
    if ops != [] {
      var prefix := ops[..|ops| - 1];
      WithdrawnTodayBounds(prefix, accountId, dayStart);
      assert forall i :: 0 <= i < |prefix| ==> prefix[i] == ops[i];
    }
  }

  /** The day's total over two stretches of history is the sum of their totals. */
  lemma {:induction false} WithdrawnTodayConcat(a: seq<Operation>, b: seq<Operation>, accountId: int, dayStart: int)
    ensures WithdrawnToday(a + b, accountId, dayStart) == WithdrawnToday(a, accountId, dayStart) + WithdrawnToday(b, accountId, dayStart)
  {
    if b == [] {
      assert a + b == a;
    } else {
      var n := |b| - 1;
      assert (a + b)[..|a + b| - 1] == a + b[..n];
      WithdrawnTodayConcat(a, b[..n], accountId, dayStart);
    }
  }

  /** A deposit, another account's operation or an earlier one never adds to the day's total. */
  lemma WithdrawnTodayAppend(ops: seq<Operation>, o: Operation, accountId: int, dayStart: int)
    ensures WithdrawnToday(ops + [o], accountId, dayStart) ==
      WithdrawnToday(ops, accountId, dayStart) + (if CountsToday(o, accountId, dayStart) then o.amount else 0)
  {
    assert (ops + [o])[..|ops|] == ops;
  }

  /** The limit check on a withdrawal of amount: today's total plus amount may reach the limit, not pass it. */
  function CheckDailyLimit(account: Account, ops: seq<Operation>, amount: int, dayStart: int): (r: Outcome)
    ensures r.Pass? <==> WithdrawnToday(ops, account.id, dayStart) + amount <= account.dailyLimit
    ensures r.Fail? ==> r.error == DailyLimitExceeded
  {
    if WithdrawnToday(ops, account.id, dayStart) + amount > account.dailyLimit then Fail(DailyLimitExceeded)
    else Pass
  }

  // ---------------------------------------------------------------------------
  // Deposit and withdrawal

  const DEPOSIT_DESCRIPTION: string := "Depósito"
  const WITHDRAWAL_DESCRIPTION: string := "Saque"

  /** The description given, unless it is missing or empty. */
  function DescriptionOr(d: Option<string>, fallback: string): (text: string)
    ensures d.Some? && d.value != "" ==> text == d.value
    ensures d.None? || d.value == "" ==> text == fallback
  {
    if d.Some? && d.value != "" then d.value else fallback
  }

  /** A deposit request, applied to the store as one transaction. */
  function Deposit(s: State, req: Schemas.OperationCreate, now: int): (r: (State, Result<Operation>))
    ensures r.1.Err? ==> r.0 == s
    ensures req.operationType != Schemas.Deposit ==> r.1 == Err(WrongKind)
    ensures req.operationType == Schemas.Deposit && !Eligible(s.accounts, req.accountId) ==>
      r.1 == Err(CheckEligible(s.accounts, req.accountId).error)
    ensures r.1 == Err(ColumnOverflow) <==>
      && req.operationType == Schemas.Deposit
      && Eligible(s.accounts, req.accountId)
      && s.accounts[req.accountId].balance + req.amount >= NUMERIC_BOUND
    ensures r.1.Ok? <==>
      && req.operationType == Schemas.Deposit
      && Eligible(s.accounts, req.accountId)
      && s.accounts[req.accountId].balance + req.amount < NUMERIC_BOUND
    ensures r.1.Ok? ==>
      var a := s.accounts[req.accountId];
      var op := r.1.value;
      && op.id == s.nextOperationId
      && op.accountId == a.id
      && op.operationType == Models.Deposit
      && op.amount == req.amount
      && op.balanceAfter == a.balance + req.amount
      && op.description == Some(DescriptionOr(req.description, DEPOSIT_DESCRIPTION))
      && op.timestamp == now
      && r.0.accounts == s.accounts[req.accountId := a.(balance := op.balanceAfter)]
      && r.0.ops == s.ops + [op]
      && r.0.nextOperationId == s.nextOperationId + 1
      && r.0.nextAccountId == s.nextAccountId
      && r.0.opening == s.opening
  {
    if req.operationType != Schemas.Deposit then (s, Err(WrongKind))
    else match CheckEligible(s.accounts, req.accountId)
      case Err(e) => (s, Err(e))
      case Ok(account) =>
        var newBalance := account.balance + req.amount;
        if newBalance >= NUMERIC_BOUND then (s, Err(ColumnOverflow))
        else
          var op := Operation(s.nextOperationId, account.id, Models.Deposit, req.amount, newBalance,
                              Some(DescriptionOr(req.description, DEPOSIT_DESCRIPTION)), now);
          (s.(accounts := s.accounts[req.accountId := account.(balance := newBalance)],
              ops := s.ops + [op],
              nextOperationId := s.nextOperationId + 1),
           Ok(op))
  }

  /** A withdrawal request: eligibility, then the balance, then the daily limit. */
  function Withdraw(s: State, req: Schemas.OperationCreate, now: int, dayStart: int): (r: (State, Result<Operation>))
    ensures r.1.Err? ==> r.0 == s
    ensures req.operationType != Schemas.Withdrawal ==> r.1 == Err(WrongKind)
    ensures req.operationType == Schemas.Withdrawal && !Eligible(s.accounts, req.accountId) ==>
      r.1 == Err(CheckEligible(s.accounts, req.accountId).error)
    ensures r.1 == Err(InsufficientBalance) <==>
      && req.operationType == Schemas.Withdrawal
      && Eligible(s.accounts, req.accountId)
      && s.accounts[req.accountId].balance < req.amount
    ensures r.1 == Err(DailyLimitExceeded) <==>
      && req.operationType == Schemas.Withdrawal
      && Eligible(s.accounts, req.accountId)
      && req.amount <= s.accounts[req.accountId].balance
      && WithdrawnToday(s.ops, s.accounts[req.accountId].id, dayStart) + req.amount > s.accounts[req.accountId].dailyLimit
    ensures r.1.Ok? <==>
      && req.operationType == Schemas.Withdrawal
      && Eligible(s.accounts, req.accountId)
      && req.amount <= s.accounts[req.accountId].balance
      && WithdrawnToday(s.ops, s.accounts[req.accountId].id, dayStart) + req.amount <= s.accounts[req.accountId].dailyLimit
    ensures r.1.Ok? ==>
      var a := s.accounts[req.accountId];
      var op := r.1.value;
      && op.id == s.nextOperationId
      && op.accountId == a.id
      && op.operationType == Models.Withdrawal
      && op.amount == req.amount
      && op.balanceAfter == a.balance - req.amount
      && op.description == Some(DescriptionOr(req.description, WITHDRAWAL_DESCRIPTION))
      && op.timestamp == now
      && r.0.accounts == s.accounts[req.accountId := a.(balance := op.balanceAfter)]
      && r.0.ops == s.ops + [op]
      && r.0.nextOperationId == s.nextOperationId + 1
      && r.0.nextAccountId == s.nextAccountId
      && r.0.opening == s.opening
  {
    if req.operationType != Schemas.Withdrawal then (s, Err(WrongKind))
    else match CheckEligible(s.accounts, req.accountId)
      case Err(e) => (s, Err(e))
      case Ok(account) =>
        if account.balance < req.amount then (s, Err(InsufficientBalance))
        else match CheckDailyLimit(account, s.ops, req.amount, dayStart)
          case Fail(e) => (s, Err(e))
          case Pass =>
            var newBalance := account.balance - req.amount;
            var op := Operation(s.nextOperationId, account.id, Models.Withdrawal, req.amount, newBalance,
                                Some(DescriptionOr(req.description, WITHDRAWAL_DESCRIPTION)), now);
            (s.(accounts := s.accounts[req.accountId := account.(balance := newBalance)],
                ops := s.ops + [op],
                nextOperationId := s.nextOperationId + 1),
             Ok(op))
  }

  /** The description the engine stores always fits its column. */
  lemma StoredDescriptionFits(d: Option<string>, fallback: string)
    requires FitsDescription(d)
    requires |fallback| <= DESCRIPTION_MAX
    ensures FitsDescription(Some(DescriptionOr(d, fallback)))
  {
  }

  /** The state after `op` is recorded against account `accountId` and the balance is moved to its snapshot. */
  function Appended(s: State, accountId: int, op: Operation): State
    requires accountId in s.accounts
  {
    s.(accounts := s.accounts[accountId := s.accounts[accountId].(balance := op.balanceAfter)],
       ops := s.ops + [op],
       nextOperationId := s.nextOperationId + 1)
  }

  /** What a deposit or withdrawal guarantees about the row it records before recording it. */
  ghost predicate Appendable(s: State, accountId: int, op: Operation) {
    && Consistent(s)
    && accountId in s.accounts && s.accounts[accountId].id == op.accountId
    && op.operationType != Transfer && 0 <= op.amount && op.id == s.nextOperationId
    && StorableOperation(op) && 0 <= op.balanceAfter
    && op.balanceAfter == s.accounts[accountId].balance + Signed(op, op.accountId)
  }

  lemma AppendKeepsAccountsWellFormed(s: State, accountId: int, op: Operation)
    requires Appendable(s, accountId, op)
    ensures AccountsWellFormed(Appended(s, accountId, op))
  {
    var s' := Appended(s, accountId, op);
    assert s'.accounts.Keys == s.accounts.Keys;
    forall id | id in s'.accounts
      ensures s'.accounts[id].id == id && 0 < id < s'.nextAccountId
      ensures 0 <= s'.accounts[id].balance && 0 <= s'.accounts[id].dailyLimit
      ensures StorableAccount(s'.accounts[id]) && 0 <= s'.opening[id]
    {
      if id != accountId { assert s'.accounts[id] == s.accounts[id]; }
    }
  }

  lemma AppendKeepsOperationsWellFormed(s: State, accountId: int, op: Operation)
    requires Appendable(s, accountId, op)
    ensures OperationsWellFormed(Appended(s, accountId, op))
  {
    var s' := Appended(s, accountId, op);
    assert op.accountId == accountId;
    forall i | 0 <= i < |s'.ops|
      ensures s'.ops[i].accountId in s'.accounts
      ensures s'.ops[i].operationType != Transfer && 0 <= s'.ops[i].amount && 0 <= s'.ops[i].balanceAfter
      ensures StorableOperation(s'.ops[i]) && 0 < s'.ops[i].id < s'.nextOperationId
    {
      if i < |s.ops| { assert s'.ops[i] == s.ops[i]; }
    }
    forall i, j | 0 <= i < j < |s'.ops|
      ensures s'.ops[i].id < s'.ops[j].id
    {
      assert s'.ops[i] == s.ops[i];
      if j < |s.ops| { assert s'.ops[j] == s.ops[j]; }
    }
  }

  lemma AppendKeepsBalancesReplay(s: State, accountId: int, op: Operation)
    requires Appendable(s, accountId, op)
    ensures Appended(s, accountId, op).opening.Keys == Appended(s, accountId, op).accounts.Keys
    ensures BalancesReplay(Appended(s, accountId, op))
  {
    var s' := Appended(s, accountId, op);
    assert op.accountId == accountId;
    forall id | id in s'.accounts
      ensures s'.accounts[id].balance == s'.opening[id] + NetFlow(s'.ops, id)
    {
      NetFlowAppend(s.ops, op, id);
    }
  }

  lemma AppendKeepsUniqueActive(s: State, accountId: int, op: Operation)
    requires Appendable(s, accountId, op)
    ensures UniqueActive(Appended(s, accountId, op).accounts)
  {
  }

  /**
   * Appending op to a consistent store, with the balance of op's account set
   * to op's balance_after, gives a consistent store again, provided op is a
   * well-formed deposit or withdrawal that the balance moves by.
   */
  lemma AppendPreservesConsistency(s: State, accountId: int, op: Operation)
    requires Consistent(s)
    requires accountId in s.accounts && s.accounts[accountId].id == op.accountId
    requires op.operationType != Transfer && 0 <= op.amount && op.id == s.nextOperationId
    requires StorableOperation(op) && 0 <= op.balanceAfter
    requires op.balanceAfter == s.accounts[accountId].balance + Signed(op, op.accountId)
    ensures Consistent(s.(accounts := s.accounts[accountId := s.accounts[accountId].(balance := op.balanceAfter)],
                          ops := s.ops + [op],
                          nextOperationId := s.nextOperationId + 1))
  {
    assert Appendable(s, accountId, op);
    AppendKeepsAccountsWellFormed(s, accountId, op);
    AppendKeepsOperationsWellFormed(s, accountId, op);
    AppendKeepsBalancesReplay(s, accountId, op);
    AppendKeepsUniqueActive(s, accountId, op);
    ChainAppend(s.ops, s.opening, op);
    assert Consistent(Appended(s, accountId, op));
  }

  lemma DepositPreservesConsistency(s: State, req: Schemas.OperationCreate, now: int)
    requires Consistent(s)
    requires Schemas.AdmissibleOperationCreate(req)
    ensures Consistent(Deposit(s, req, now).0)
  {
    var r := Deposit(s, req, now);
    if r.1.Ok? {
      StoredDescriptionFits(req.description, DEPOSIT_DESCRIPTION);
      AppendPreservesConsistency(s, req.accountId, r.1.value);
    }
  }

  lemma WithdrawPreservesConsistency(s: State, req: Schemas.OperationCreate, now: int, dayStart: int)
    requires Consistent(s)
    requires Schemas.AdmissibleOperationCreate(req)
    ensures Consistent(Withdraw(s, req, now, dayStart).0)
  {
    var r := Withdraw(s, req, now, dayStart);
    if r.1.Ok? {
      StoredDescriptionFits(req.description, WITHDRAWAL_DESCRIPTION);
      AppendPreservesConsistency(s, req.accountId, r.1.value);
    }
  }

  /** A deposit of a positive amount keeps every amount and limit positive. */
  lemma DepositKeepsPositiveAmounts(s: State, req: Schemas.OperationCreate, now: int)
    requires PositiveAmounts(s)
    requires Schemas.ValidOperationCreate(req)
    ensures PositiveAmounts(Deposit(s, req, now).0)
  {
    var r := Deposit(s, req, now);
    if r.1.Ok? {
      forall i | 0 <= i < |r.0.ops| ensures 0 < r.0.ops[i].amount {
        if i < |s.ops| { assert r.0.ops[i] == s.ops[i]; }
      }
    }
  }

  /** A withdrawal of a positive amount keeps every amount and limit positive. */
  lemma WithdrawKeepsPositiveAmounts(s: State, req: Schemas.OperationCreate, now: int, dayStart: int)
    requires PositiveAmounts(s)
    requires Schemas.ValidOperationCreate(req)
    ensures PositiveAmounts(Withdraw(s, req, now, dayStart).0)
  {
    var r := Withdraw(s, req, now, dayStart);
    if r.1.Ok? {
      forall i | 0 <= i < |r.0.ops| ensures 0 < r.0.ops[i].amount {
        if i < |s.ops| { assert r.0.ops[i] == s.ops[i]; }
      }
    }
  }

  /** After a successful withdrawal made today, the day's total is still within the account's limit. */
  lemma WithdrawKeepsDailyLimit(s: State, req: Schemas.OperationCreate, now: int, dayStart: int)
    requires dayStart <= now
    requires Withdraw(s, req, now, dayStart).1.Ok?
    ensures var a := s.accounts[req.accountId];
      WithdrawnToday(Withdraw(s, req, now, dayStart).0.ops, a.id, dayStart) ==
        WithdrawnToday(s.ops, a.id, dayStart) + req.amount <= a.dailyLimit
  {
    var r := Withdraw(s, req, now, dayStart);
    WithdrawnTodayAppend(s.ops, r.1.value, s.accounts[req.accountId].id, dayStart);
  }

  // ---------------------------------------------------------------------------
  // Read-only queries

  /** The account's operations. */
  function OfAccount(ops: seq<Operation>, accountId: int): (r: seq<Operation>)
    ensures |r| <= |ops|
    ensures forall o :: o in r <==> o in ops && o.accountId == accountId
  {
    if ops == [] then []
    else
      var prefix := OfAccount(ops[..|ops| - 1], accountId);
      var last := ops[|ops| - 1];
      assert ops == ops[..|ops| - 1] + [last];
      if last.accountId == accountId then prefix + [last] else prefix
  }

  /** The account's history holds each of its operations exactly as often as the table does, and nothing else. */
  lemma {:induction false} OfAccountMultiplicity(ops: seq<Operation>, accountId: int)
    ensures forall o :: multiset(OfAccount(ops, accountId))[o] == if o.accountId == accountId then multiset(ops)[o] else 0
  {
    if ops != [] {
      var prefix, last := ops[..|ops| - 1], ops[|ops| - 1];
      OfAccountMultiplicity(prefix, accountId);
      assert ops == prefix + [last];
      assert multiset(ops) == multiset(prefix) + multiset{last};
    }
  }

  /** A history made only of the account's operations is all of its history. */
  lemma {:induction false} OfAccountAllOwn(ops: seq<Operation>, accountId: int)
    requires forall i :: 0 <= i < |ops| ==> ops[i].accountId == accountId
    ensures OfAccount(ops, accountId) == ops
  {
    if ops != [] {
      OfAccountAllOwn(ops[..|ops| - 1], accountId);
      assert ops == ops[..|ops| - 1] + [ops[|ops| - 1]];
    }
  }

  datatype StatementPage = StatementPage(account: Account, operations: seq<Operation>, totalOperations: nat)

  /**
   * The rows the statement's query keeps, before ordering and paging: another
   * name for OfAccount, used in GetStatement's contract so that the solver
   * does not unfold the recursion there.
   */
  function History(ops: seq<Operation>, accountId: int): (r: seq<Operation>)
    ensures forall o :: o in r ==> o in ops && o.accountId == accountId
  {
    OfAccount(ops, accountId)
  }

  /**
   * The statement of an account: the account, a page of its operations, newest
   * first, and the number of all its operations. The account must be eligible.
   */
  function GetStatement(accounts: map<int, Account>, ops: seq<Operation>, accountId: int, limit: nat, offset: nat): (r: Result<StatementPage>)
    ensures r.Ok? <==> Eligible(accounts, accountId)
    ensures r.Err? ==> r.error == CheckEligible(accounts, accountId).error
    ensures r.Ok? ==> r.value.account == accounts[accountId]
    ensures r.Ok? ==> r.value.totalOperations == |History(ops, accountId)|
    ensures r.Ok? ==> |r.value.operations| <= r.value.totalOperations && |r.value.operations| <= limit
    ensures r.Ok? ==> SortedDesc(r.value.operations, Timestamp)
    ensures r.Ok? ==> multiset(r.value.operations) <= multiset(History(ops, accountId))
    ensures r.Ok? ==> forall o :: o in r.value.operations ==> o in ops && o.accountId == accountId
    ensures r.Ok? ==> IsPageOf(r.value.operations, History(ops, accountId), offset, limit, Timestamp)
    ensures r.Ok? ==>
      |r.value.operations| == if offset < r.value.totalOperations then Min(limit, r.value.totalOperations - offset) else 0
    ensures r.Ok? && offset == 0 && r.value.totalOperations <= limit ==>
      multiset(r.value.operations) == multiset(History(ops, accountId))
  {
    match CheckEligible(accounts, accountId)
    case Err(e) => Err(e)
    case Ok(account) =>
      var history := History(ops, accountId);
      Ok(StatementPage(account, OrderedPage(history, Timestamp, offset, limit), |history|))
  }

  /** The operation passes the listing's optional account and type filters. */
  predicate Selected(o: Operation, accountId: Option<int>, operationType: Option<OperationType>) {
    && (FiltersOnId(accountId) ==> o.accountId == accountId.value)
    && (operationType.Some? ==> o.operationType == operationType.value)
  }

  /** The operations that pass the filters. */
  function Select(ops: seq<Operation>, accountId: Option<int>, operationType: Option<OperationType>): (r: seq<Operation>)
    ensures |r| <= |ops|
    ensures forall o :: o in r <==> o in ops && Selected(o, accountId, operationType)
  {
    if ops == [] then []
    else
      var prefix := Select(ops[..|ops| - 1], accountId, operationType);
      var last := ops[|ops| - 1];
      assert ops == ops[..|ops| - 1] + [last];
      if Selected(last, accountId, operationType) then prefix + [last] else prefix
  }

  /** The filtered rows hold each selected operation exactly as often as the table does, and nothing else. */
  lemma {:induction false} SelectMultiplicity(ops: seq<Operation>, accountId: Option<int>, operationType: Option<OperationType>)
    ensures forall o :: multiset(Select(ops, accountId, operationType))[o] ==
                if Selected(o, accountId, operationType) then multiset(ops)[o] else 0
  {
    if ops != [] {
      var prefix, last := ops[..|ops| - 1], ops[|ops| - 1];
      SelectMultiplicity(prefix, accountId, operationType);
      assert ops == prefix + [last];
      assert multiset(ops) == multiset(prefix) + multiset{last};
    }
  }

  /**
   * The rows the listing's WHERE clauses keep, before ordering and paging:
   * another name for Select, used in ListOperations' contract so that the
   * solver does not unfold the recursion there.
   */
  function ListedOperations(ops: seq<Operation>, accountId: Option<int>, operationType: Option<OperationType>): (r: seq<Operation>)
    ensures forall o :: o in r ==> o in ops && Selected(o, accountId, operationType)
  {
    Select(ops, accountId, operationType)
  }

  /** The operation listing: filter, newest first, then skip and limit. */
  function ListOperations(ops: seq<Operation>, accountId: Option<int>, operationType: Option<OperationType>, skip: nat, limit: nat): (r: seq<Operation>)
    ensures |r| <= limit
    ensures SortedDesc(r, Timestamp)
    ensures forall o :: o in r ==> o in ops && Selected(o, accountId, operationType)
    ensures multiset(r) <= multiset(ListedOperations(ops, accountId, operationType))
    ensures IsPageOf(r, ListedOperations(ops, accountId, operationType), skip, limit, Timestamp)
    ensures var n := |ListedOperations(ops, accountId, operationType)|;
      |r| == if skip < n then Min(limit, n - skip) else 0
    ensures skip == 0 && |ListedOperations(ops, accountId, operationType)| <= limit ==>
      multiset(r) == multiset(ListedOperations(ops, accountId, operationType))
  {
    OrderedPage(ListedOperations(ops, accountId, operationType), Timestamp, skip, limit)
  }

  /**
   * The statement takes limit and offset as they come: a limit the statement
   * query schema would refuse still yields a statement.
   */
  lemma StatementIgnoresQuerySchema(accounts: map<int, Account>, ops: seq<Operation>, accountId: int)
    requires Eligible(accounts, accountId)
    ensures !Schemas.ValidStatementQuery(Schemas.StatementQuery(Schemas.MAX_STATEMENT_LIMIT + 1, 0))
    ensures GetStatement(accounts, ops, accountId, Schemas.MAX_STATEMENT_LIMIT + 1, 0).Ok?
  {
  }

  /**
   * A daily limit of 0.00 refuses every withdrawal of a positive amount from a
   * consistent store, for lack of balance or for the limit.
   */
  lemma ZeroLimitRefusesPositiveWithdrawal(s: State, req: Schemas.OperationCreate, now: int, dayStart: int)
    requires Consistent(s)
    requires Eligible(s.accounts, req.accountId) && s.accounts[req.accountId].dailyLimit == 0
    requires 0 < req.amount
    ensures Withdraw(s, req, now, dayStart).1.Err?
  {
    WithdrawnTodayBounds(s.ops, s.accounts[req.accountId].id, dayStart);
  }

  /** A withdrawal of 0.00, which the validators as written let through, passes a limit of 0.00. */
  lemma ZeroLimitAdmitsZeroWithdrawal()
    ensures Schemas.ParsePositiveAsWritten(1, Schemas.MAX_AMOUNT) == Ok(0)
    ensures Withdraw(State(map[1 := Account(1, 7, Checking, 500, 0, true, 0)], [], 2, 1, map[1 := 500]),
                     Schemas.OperationCreate(1, Schemas.Withdrawal, 0, None), 10, 0).1.Ok?
  {
    assert WithdrawnToday([], 1, 0) == 0;
  }

  /**
   * Paging through a statement loses no operation and repeats none, as long
   * as every query orders operations with equal timestamps the same way.
   */
  lemma StatementPagesConcatenate(accounts: map<int, Account>, ops: seq<Operation>, accountId: int, offset: nat, a: nat, b: nat)
    requires Eligible(accounts, accountId)
    ensures GetStatement(accounts, ops, accountId, a, offset).value.operations
      + GetStatement(accounts, ops, accountId, b, offset + a).value.operations
      == GetStatement(accounts, ops, accountId, a + b, offset).value.operations
  {
    OrderedPagesConcatenate(History(ops, accountId), Timestamp, offset, a, b);
  }

  /**
   * Paging through the operation listing loses no row and repeats none, as
   * long as every query orders operations with equal timestamps the same way.
   */
  lemma ListingPagesConcatenate(ops: seq<Operation>, accountId: Option<int>, operationType: Option<OperationType>, skip: nat, a: nat, b: nat)
    ensures ListOperations(ops, accountId, operationType, skip, a) + ListOperations(ops, accountId, operationType, skip + a, b)
      == ListOperations(ops, accountId, operationType, skip, a + b)
  {
    OrderedPagesConcatenate(ListedOperations(ops, accountId, operationType), Timestamp, skip, a, b);
  }
}
