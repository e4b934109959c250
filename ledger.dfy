/**
 * The ledger as the service holds it: one object whose account table and
 * operation table each request updates in place, one request at a time.
 */
module Ledger {
  import opened Outcomes
  import opened Models
  import opened Store
  import Schemas
  import Operations
  import Accounts

  class Ledger {
    var accounts: map<int, Account>
    var ops: seq<Operation>
    var nextAccountId: int
    var nextOperationId: int
    ghost var opening: map<int, int>  // each account's balance at creation

    ghost function Snapshot(): State
      reads this
    {
      State(accounts, ops, nextAccountId, nextOperationId, opening)
    }

    ghost predicate Valid()
      reads this
    {
      Consistent(Snapshot())
    }

    constructor ()
      ensures Valid()
      ensures Snapshot() == EMPTY
    {
      accounts, ops := map[], [];
      nextAccountId, nextOperationId := 1, 1;
      opening := map[];
      EmptyIsConsistent();
    }

    /**
     * Opens an account, unless the user already has an active one of that type.
     * Takes the steps of Accounts.CreateAccount in order, on the fields themselves.
     */
    method CreateAccount(req: Schemas.AccountCreate, now: int) returns (r: Result<Account>)
      requires Valid()
      requires Schemas.AdmissibleAccountCreate(req)
      modifies this
      ensures Valid()
      ensures (Snapshot(), r) == Accounts.CreateAccount(old(Snapshot()), req, now)
    {
      ghost var expected := Accounts.CreateAccount(Snapshot(), req, now);
      Accounts.CreatePreservesConsistency(Snapshot(), req, now);
      if HasActive(accounts, req.userId, req.accountType) {
        return Err(Duplicate);
      }
      if !(FitsNumeric(req.initialBalance) && FitsNumeric(req.dailyLimit)) {
        return Err(ColumnOverflow);
      }
      var account := NewAccountRow(nextAccountId, req.userId, now, req.accountType,
                                   req.initialBalance, req.dailyLimit, true);
      accounts := accounts[account.id := account];
      opening := opening[account.id := req.initialBalance];
      nextAccountId := nextAccountId + 1;
      r := Ok(account);
      assert Snapshot() == expected.0;
    }

    /**
     * Soft-deletes an account: only its active flag changes.
     * Takes the steps of Accounts.Deactivate in order, on the fields themselves.
     */
    method Deactivate(accountId: int) returns (r: Outcome)
      requires Valid()
      modifies this
      ensures Valid()
      ensures (Snapshot(), r) == Accounts.Deactivate(old(Snapshot()), accountId)
    {
      ghost var expected := Accounts.Deactivate(Snapshot(), accountId);
      Accounts.DeactivatePreservesConsistency(Snapshot(), accountId);
      if accountId !in accounts {
        return Fail(NotFound);
      }
      var account := accounts[accountId];
      if !account.isActive {
        return Fail(AlreadyInactive);
      }
      accounts := accounts[accountId := account.(isActive := false)];
      r := Pass;
      assert Snapshot() == expected.0;
    }

    /**
     * Credits an eligible account and records the deposit.
     * Takes the steps of Operations.Deposit in order, on the fields themselves.
     */
    method Deposit(req: Schemas.OperationCreate, now: int) returns (r: Result<Operation>)
      requires Valid()
      requires Schemas.AdmissibleOperationCreate(req)
      modifies this
      ensures Valid()
      ensures (Snapshot(), r) == Operations.Deposit(old(Snapshot()), req, now)
    {
      ghost var expected := Operations.Deposit(Snapshot(), req, now);
      Operations.DepositPreservesConsistency(Snapshot(), req, now);
      if req.operationType != Schemas.Deposit {
        return Err(WrongKind);
      }
      var found := Operations.CheckEligible(accounts, req.accountId);
      if found.Err? {
        return Err(found.error);
      }
      var account := found.value;
      var newBalance := account.balance + req.amount;
      if newBalance >= NUMERIC_BOUND {
        return Err(ColumnOverflow);
      }
      accounts := accounts[req.accountId := account.(balance := newBalance)];
      var op := Operation(nextOperationId, account.id, Models.Deposit, req.amount, newBalance,
                          Some(Operations.DescriptionOr(req.description, Operations.DEPOSIT_DESCRIPTION)), now);
      ops := ops + [op];
      nextOperationId := nextOperationId + 1;
      r := Ok(op);
      assert Snapshot() == expected.0;
    }

    /**
     * Debits an eligible account when the balance and the daily limit allow, and records the withdrawal.
     * Takes the steps of Operations.Withdraw in order, on the fields themselves.
     */
    method Withdraw(req: Schemas.OperationCreate, now: int, dayStart: int) returns (r: Result<Operation>)
      requires Valid()
      requires Schemas.AdmissibleOperationCreate(req)
      modifies this
      ensures Valid()
      ensures (Snapshot(), r) == Operations.Withdraw(old(Snapshot()), req, now, dayStart)
    {
      ghost var expected := Operations.Withdraw(Snapshot(), req, now, dayStart);
      Operations.WithdrawPreservesConsistency(Snapshot(), req, now, dayStart);
      if req.operationType != Schemas.Withdrawal {
        return Err(WrongKind);
      }
      var found := Operations.CheckEligible(accounts, req.accountId);
      if found.Err? {
        return Err(found.error);
      }
      var account := found.value;
      if account.balance < req.amount {
        return Err(InsufficientBalance);
      }
      var withinLimit := Operations.CheckDailyLimit(account, ops, req.amount, dayStart);
      if withinLimit.Fail? {
        return Err(withinLimit.error);
      }
      var newBalance := account.balance - req.amount;
      accounts := accounts[req.accountId := account.(balance := newBalance)];
      var op := Operation(nextOperationId, account.id, Models.Withdrawal, req.amount, newBalance,
                          Some(Operations.DescriptionOr(req.description, Operations.WITHDRAWAL_DESCRIPTION)), now);
      ops := ops + [op];
      nextOperationId := nextOperationId + 1;
      r := Ok(op);
      assert Snapshot() == expected.0;
    }
  }

  // ---------------------------------------------------------------------------
  // Any request, and any sequence of requests

  /** The four requests that change the ledger; now and dayStart are the clock's readings. */
  datatype Request =
    | CreateRequest(create: Schemas.AccountCreate, now: int)
    | DeactivateRequest(accountId: int)
    | DepositRequest(operation: Schemas.OperationCreate, now: int)
    | WithdrawRequest(operation: Schemas.OperationCreate, now: int, dayStart: int)

  /** The request passed its schema's checks as the validators perform them, a value of 0.00 included. */
  predicate AdmissibleRequest(q: Request) {
    match q
    case CreateRequest(c, _) => Schemas.AdmissibleAccountCreate(c)
    case DeactivateRequest(_) => true
    case DepositRequest(o, _) => Schemas.AdmissibleOperationCreate(o)
    case WithdrawRequest(o, _, _) => Schemas.AdmissibleOperationCreate(o)
  }

  /** The request meets its schema's declared constraints: amounts and limits strictly positive. */
  predicate ValidRequest(q: Request) {
    match q
    case CreateRequest(c, _) => Schemas.ValidAccountCreate(c)
    case DeactivateRequest(_) => true
    case DepositRequest(o, _) => Schemas.ValidOperationCreate(o)
    case WithdrawRequest(o, _, _) => Schemas.ValidOperationCreate(o)
  }

  /** One request, handled as one transaction; a refused request leaves the store as it was. */
  function Handle(s: State, q: Request): (r: (State, Outcome))
    ensures r.1.Fail? ==> r.0 == s
    ensures s.ops <= r.0.ops && |r.0.ops| <= |s.ops| + 1
  {
    match q
    case CreateRequest(c, now) =>
      var (s', res) := Accounts.CreateAccount(s, c, now);
      (s', if res.Ok? then Pass else Fail(res.error))
    case DeactivateRequest(id) => Accounts.Deactivate(s, id)
    case DepositRequest(o, now) =>
      var (s', res) := Operations.Deposit(s, o, now);
      (s', if res.Ok? then Pass else Fail(res.error))
    case WithdrawRequest(o, now, dayStart) =>
      var (s', res) := Operations.Withdraw(s, o, now, dayStart);
      (s', if res.Ok? then Pass else Fail(res.error))
  }

  /** The requests handled one after another. */
  function Run(s: State, qs: seq<Request>): (r: State)
    ensures s.ops <= r.ops && |r.ops| <= |s.ops| + |qs|
    decreases |qs|
  {
    if qs == [] then s else Run(Handle(s, qs[0]).0, qs[1..])
  }

  /**
   * What may change from one state to a later one: accounts are only added,
   * operations only appended, an account's owner, type, limit and creation
   * time never change, and an inactive account never becomes active again.
   */
  ghost predicate Evolves(s: State, s': State) {
    && s.ops <= s'.ops
    && s.accounts.Keys <= s'.accounts.Keys
    && forall id :: id in s.accounts ==>
      && s'.accounts[id].id == s.accounts[id].id
      && s'.accounts[id].userId == s.accounts[id].userId
      && s'.accounts[id].accountType == s.accounts[id].accountType
      && s'.accounts[id].dailyLimit == s.accounts[id].dailyLimit
      && s'.accounts[id].createdAt == s.accounts[id].createdAt
      && (!s.accounts[id].isActive ==> !s'.accounts[id].isActive)
  }

  lemma EvolvesTransitive(s1: State, s2: State, s3: State)
    requires Evolves(s1, s2) && Evolves(s2, s3)
    ensures Evolves(s1, s3)
  {
  }

  lemma HandlePreservesConsistency(s: State, q: Request)
    requires Consistent(s)
    requires AdmissibleRequest(q)
    ensures Consistent(Handle(s, q).0)
  {
    match q
    case CreateRequest(c, now) => Accounts.CreatePreservesConsistency(s, c, now);
    case DeactivateRequest(id) => Accounts.DeactivatePreservesConsistency(s, id);
    case DepositRequest(o, now) => Operations.DepositPreservesConsistency(s, o, now);
    case WithdrawRequest(o, now, dayStart) => Operations.WithdrawPreservesConsistency(s, o, now, dayStart);
  }

  lemma CreateEvolves(s: State, c: Schemas.AccountCreate, now: int)
    requires Consistent(s)
    ensures Evolves(s, Accounts.CreateAccount(s, c, now).0)
  {
    Accounts.CreateAddsOneAccount(s, c, now);
  }

  lemma DeactivateEvolves(s: State, id: int)
    ensures Evolves(s, Accounts.Deactivate(s, id).0)
  {
  }

  lemma DepositEvolves(s: State, o: Schemas.OperationCreate, now: int)
    ensures Evolves(s, Operations.Deposit(s, o, now).0)
  {
  }

  lemma WithdrawEvolves(s: State, o: Schemas.OperationCreate, now: int, dayStart: int)
    ensures Evolves(s, Operations.Withdraw(s, o, now, dayStart).0)
  {
  }

  lemma HandleEvolves(s: State, q: Request)
    requires Consistent(s)
    ensures Evolves(s, Handle(s, q).0)
  {
    match q
    case CreateRequest(c, now) => CreateEvolves(s, c, now);
    case DeactivateRequest(id) => DeactivateEvolves(s, id);
    case DepositRequest(o, now) => DepositEvolves(s, o, now);
    case WithdrawRequest(o, now, dayStart) => WithdrawEvolves(s, o, now, dayStart);
  }

  /** Every sequence of requests that passed their schemas keeps the store consistent. */
  lemma {:induction false} RunPreservesConsistency(s: State, qs: seq<Request>)
    requires Consistent(s)
    requires forall i :: 0 <= i < |qs| ==> AdmissibleRequest(qs[i])
    ensures Consistent(Run(s, qs))
    decreases |qs|
  {
    if qs != [] {
      HandlePreservesConsistency(s, qs[0]);
      RunPreservesConsistency(Handle(s, qs[0]).0, qs[1..]);
    }
  }

  /** A request that meets its schema's declared constraints records only positive amounts and limits. */
  lemma HandleKeepsPositiveAmounts(s: State, q: Request)
    requires PositiveAmounts(s)
    requires ValidRequest(q)
    ensures PositiveAmounts(Handle(s, q).0)
  {
    match q
    case CreateRequest(c, now) => Accounts.CreateKeepsPositiveAmounts(s, c, now);
    case DeactivateRequest(id) => Accounts.DeactivateKeepsPositiveAmounts(s, id);
    case DepositRequest(o, now) => Operations.DepositKeepsPositiveAmounts(s, o, now);
    case WithdrawRequest(o, now, dayStart) => Operations.WithdrawKeepsPositiveAmounts(s, o, now, dayStart);
  }

  /** Under the schemas' declared constraints, every amount and daily limit in the store stays positive. */
  lemma {:induction false} RunKeepsPositiveAmounts(s: State, qs: seq<Request>)
    requires PositiveAmounts(s)
    requires forall i :: 0 <= i < |qs| ==> ValidRequest(qs[i])
    ensures PositiveAmounts(Run(s, qs))
    decreases |qs|
  {
    if qs != [] {
      HandleKeepsPositiveAmounts(s, qs[0]);
      RunKeepsPositiveAmounts(Handle(s, qs[0]).0, qs[1..]);
    }
  }

  /** Over any sequence of requests, history is append-only and deactivation is final. */
  lemma {:induction false} RunEvolves(s: State, qs: seq<Request>)
    requires Consistent(s)
    requires forall i :: 0 <= i < |qs| ==> AdmissibleRequest(qs[i])
    ensures Evolves(s, Run(s, qs))
    decreases |qs|
  {
    if qs != [] {
      var s1 := Handle(s, qs[0]).0;
      HandleEvolves(s, qs[0]);
      HandlePreservesConsistency(s, qs[0]);
      RunEvolves(s1, qs[1..]);
      EvolvesTransitive(s, s1, Run(s1, qs[1..]));
    }
  }

  // ---------------------------------------------------------------------------
  // Clients

  /** A deposit credits the account and records the default description; a withdrawal request is refused. */
  method DepositScenario()
  {
    var ledger := new Ledger();
    assert !HasActive(map[], 5, Savings);
    var created := ledger.CreateAccount(Schemas.AccountCreate(5, Savings, 20_000, DEFAULT_DAILY_LIMIT), 100);
    assert created.Ok? && created.value.id == 1 && created.value.balance == 20_000;
    var deposited := ledger.Deposit(Schemas.OperationCreate(1, Schemas.Deposit, 10_000, None), 101);
    assert deposited.Ok? && deposited.value.balanceAfter == 30_000;
    assert deposited.value.description == Some(Operations.DEPOSIT_DESCRIPTION);
    assert ledger.accounts[1].balance == 30_000 && ledger.ops == [deposited.value];
    var wrongKind := ledger.Deposit(Schemas.OperationCreate(1, Schemas.Withdrawal, 10_000, None), 102);
    assert wrongKind == Err(WrongKind);
  }

  /** A withdrawal moves the balance and records the description given. */
  method WithdrawalScenario()
  {
    var ledger := new Ledger();
    assert !HasActive(map[], 5, Savings);
    var created := ledger.CreateAccount(Schemas.AccountCreate(5, Savings, 20_000, DEFAULT_DAILY_LIMIT), 100);
    assert created.Ok? && created.value.id == 1;
    assert Operations.WithdrawnToday(ledger.ops, 1, 0) == 0;
    var rent := Some("rent");
    assert Operations.DescriptionOr(rent, Operations.WITHDRAWAL_DESCRIPTION) == "rent";
    var withdrawn := ledger.Withdraw(Schemas.OperationCreate(1, Schemas.Withdrawal, 5_000, rent), 102, 0);
    assert withdrawn.Ok? && withdrawn.value.balanceAfter == 15_000;
    assert withdrawn.value.description == Some("rent");
    assert ledger.accounts[1].balance == 15_000 && ledger.ops == [withdrawn.value];
  }

  /** The statement of an account with two operations lists them newest first, and counts them. */
  method StatementScenario()
  {
    var account := Account(1, 5, Savings, 15_000, DEFAULT_DAILY_LIMIT, true, 100);
    var older := Operation(1, 1, Deposit, 10_000, 30_000, Some(Operations.DEPOSIT_DESCRIPTION), 101);
    var newer := Operation(2, 1, Withdrawal, 15_000, 15_000, Some("rent"), 102);
    Operations.OfAccountAllOwn([older, newer], 1);
    var statement := Operations.GetStatement(map[1 := account], [older, newer], 1, 50, 0);
    assert statement.Ok? && statement.value.account == account;
    assert statement.value.totalOperations == 2;
    assert multiset(statement.value.operations) == multiset{older, newer};
    assert |statement.value.operations| == 2;
    var inactive := Operations.GetStatement(map[1 := account.(isActive := false)], [older, newer], 1, 50, 0);
    assert inactive == Err(AccountInactive);
  }

  /** The daily limit stops a second withdrawal, and an overdraft is refused before it is checked. */
  method DailyLimitScenario()
  {
    var ledger := new Ledger();
    assert !HasActive(map[], 1, Checking);
    var created := ledger.CreateAccount(Schemas.AccountCreate(1, Checking, 200_000, 100_000), 0);
    assert created.Ok? && created.value.id == 1;
    assert Operations.WithdrawnToday(ledger.ops, 1, 0) == 0;
    var first := ledger.Withdraw(Schemas.OperationCreate(1, Schemas.Withdrawal, 60_000, None), 10, 0);
    assert first.Ok? && first.value.balanceAfter == 140_000;
    assert Operations.WithdrawnToday(ledger.ops, 1, 0) == 60_000;
    var second := ledger.Withdraw(Schemas.OperationCreate(1, Schemas.Withdrawal, 50_000, None), 20, 0);
    assert second == Err(DailyLimitExceeded);
    assert ledger.accounts[1].balance == 140_000;
    var tooMuch := ledger.Withdraw(Schemas.OperationCreate(1, Schemas.Withdrawal, 150_000, None), 30, 0);
    assert tooMuch == Err(InsufficientBalance);
  }

  /** An active account blocks a second one of its kind; once deactivated it takes no deposit, gives no statement and frees the slot. */
  method DeactivationScenario()
  {
    var ledger := new Ledger();
    assert !HasActive(map[], 1, Checking);
    var created := ledger.CreateAccount(Schemas.AccountCreate(1, Checking, 200_000, 100_000), 0);
    assert created.Ok? && created.value.id == 1;
    assert 1 in ledger.accounts && ledger.accounts[1] == created.value;
    assert HasActive(ledger.accounts, 1, Checking);
    var again := ledger.CreateAccount(Schemas.AccountCreate(1, Checking, 0, 100_000), 40);
    assert again == Err(Duplicate);
    var off := ledger.Deactivate(1);
    assert off == Pass;
    var late := ledger.Deposit(Schemas.OperationCreate(1, Schemas.Deposit, 100, None), 50);
    assert late == Err(AccountInactive);
    assert Operations.GetStatement(ledger.accounts, ledger.ops, 1, 50, 0) == Err(AccountInactive);
    assert !HasActive(ledger.accounts, 1, Checking);
    var replacement := ledger.CreateAccount(Schemas.AccountCreate(1, Checking, 0, 100_000), 60);
    assert replacement.Ok? && replacement.value.id == 2;
  }
}
