/**
 * The ledger's stored state: the account table, the append-only operation
 * table, the next primary keys, and (for the proofs) every account's
 * opening balance. Also the invariants that tie balances to the history.
 */
module Store {
  import opened Outcomes
  import opened Models

  datatype State = State(
    accounts: map<int, Account>,
    ops: seq<Operation>,
    nextAccountId: int,
    nextOperationId: int,
    opening: map<int, int>)

  /** An empty store; the first primary key handed out is 1. */
  const EMPTY: State := State(map[], [], 1, 1, map[])

  // ---------------------------------------------------------------------------
  // Reading an account's history

  /** What operation o does to the balance of account accountId. */
  function Signed(o: Operation, accountId: int): int {
    if o.accountId != accountId then 0
    else match o.operationType
      case Deposit => o.amount
      case Withdrawal => -o.amount
      case Transfer => 0
  }

  /** The net change the whole history makes to an account's balance. */
  function NetFlow(ops: seq<Operation>, accountId: int): int {
    if ops == [] then 0
    else NetFlow(ops[..|ops| - 1], accountId) + Signed(ops[|ops| - 1], accountId)
  }

  /** The balance_after of the account's latest operation, or opening if it has none. */
  function LatestBalance(ops: seq<Operation>, accountId: int, opening: int): int {
    if ops == [] then opening
    else if ops[|ops| - 1].accountId == accountId then ops[|ops| - 1].balanceAfter
    else LatestBalance(ops[..|ops| - 1], accountId, opening)
  }

  lemma NetFlowAppend(ops: seq<Operation>, o: Operation, accountId: int)
    ensures NetFlow(ops + [o], accountId) == NetFlow(ops, accountId) + Signed(o, accountId)
  {
    assert (ops + [o])[..|ops|] == ops;
  }

  lemma LatestBalanceAppend(ops: seq<Operation>, o: Operation, accountId: int, opening: int)
    ensures LatestBalance(ops + [o], accountId, opening) ==
      if o.accountId == accountId then o.balanceAfter else LatestBalance(ops, accountId, opening)
  {
    assert (ops + [o])[..|ops|] == ops;
  }

  // ---------------------------------------------------------------------------
  // Invariants

  /** At most one active account per (user, account type). */
  ghost predicate UniqueActive(accounts: map<int, Account>) {
    forall i, j ::
      i in accounts && j in accounts && i != j
      && accounts[i].isActive && accounts[j].isActive
      && accounts[i].userId == accounts[j].userId
      ==> accounts[i].accountType != accounts[j].accountType
  }

  /** Some active account belongs to userId and has the given type. */
  predicate HasActive(accounts: map<int, Account>, userId: int, accountType: AccountType) {
    exists id | id in accounts ::
      accounts[id].isActive && accounts[id].userId == userId && accounts[id].accountType == accountType
  }

  /**
   * Every operation's balance_after is the opening balance of its account
   * plus the net flow of the history up to and including that operation.
   */
  ghost predicate SnapshotsChain(ops: seq<Operation>, opening: map<int, int>) {
    forall i :: 0 <= i < |ops| ==>
      ops[i].accountId in opening &&
      ops[i].balanceAfter == opening[ops[i].accountId] + NetFlow(ops[..i + 1], ops[i].accountId)
  }

  /** Every account row is keyed by its own id, and is storable, non-negative and limited. */
  ghost predicate AccountsWellFormed(s: State) {
    && s.opening.Keys == s.accounts.Keys
    && forall id :: id in s.accounts ==>
      && s.accounts[id].id == id
      && 0 < id < s.nextAccountId
      && 0 <= s.accounts[id].balance
      && 0 <= s.accounts[id].dailyLimit
      && StorableAccount(s.accounts[id])
      && 0 <= s.opening[id]
  }

  /** Every operation row references an account, is a deposit or a withdrawal, and has a fresh id. */
  ghost predicate OperationsWellFormed(s: State) {
    && (forall i :: 0 <= i < |s.ops| ==>
      && s.ops[i].accountId in s.accounts
      && s.ops[i].operationType != Transfer
      && 0 <= s.ops[i].amount
      && 0 <= s.ops[i].balanceAfter
      && StorableOperation(s.ops[i])
      && 0 < s.ops[i].id < s.nextOperationId)
    && (forall i, j :: 0 <= i < j < |s.ops| ==> s.ops[i].id < s.ops[j].id)
  }

  /** Every balance is its opening balance plus what the history did to it. */
  ghost predicate BalancesReplay(s: State)
    requires s.opening.Keys == s.accounts.Keys
  {
    forall id :: id in s.accounts ==> s.accounts[id].balance == s.opening[id] + NetFlow(s.ops, id)
  }

  /**
   * The strictly positive amounts and limits that the request schemas
   * promise; kept apart from Consistent, which holds for the values the
   * validators as written let through (amounts and limits of 0.00 included).
   */
  ghost predicate PositiveAmounts(s: State) {
    && (forall id :: id in s.accounts ==> 0 < s.accounts[id].dailyLimit)
    && (forall i :: 0 <= i < |s.ops| ==> 0 < s.ops[i].amount)
  }

  /** The invariant every request preserves. */
  ghost predicate Consistent(s: State) {
    && 0 < s.nextAccountId
    && 0 < s.nextOperationId
    && AccountsWellFormed(s)
    && OperationsWellFormed(s)
    && BalancesReplay(s)
    && SnapshotsChain(s.ops, s.opening)
    && UniqueActive(s.accounts)
  }

  lemma EmptyIsConsistent()
    ensures Consistent(EMPTY)
  {
  }

  // ---------------------------------------------------------------------------
  // Consequences

  /** Where the snapshots chain, the latest balance_after is the opening balance plus the net flow. */
  lemma {:induction false} LatestIsReplay(ops: seq<Operation>, opening: map<int, int>, accountId: int)
    requires SnapshotsChain(ops, opening)
    requires accountId in opening
    ensures LatestBalance(ops, accountId, opening[accountId]) == opening[accountId] + NetFlow(ops, accountId)
  {
    if ops != [] {
      var n := |ops| - 1;
      var prefix := ops[..n];
      assert ops == prefix + [ops[n]];
      assert ops[..n + 1] == ops;
      if ops[n].accountId != accountId {
        forall i | 0 <= i < |prefix|
          ensures prefix[i].accountId in opening
          ensures prefix[i].balanceAfter == opening[prefix[i].accountId] + NetFlow(prefix[..i + 1], prefix[i].accountId)
        {
          assert prefix[..i + 1] == ops[..i + 1];
        }
        LatestIsReplay(prefix, opening, accountId);
      }
    }
  }

  /** The core consistency property: each balance is the balance_after of the account's latest operation, or its opening balance. */
  lemma BalanceIsLatestSnapshot(s: State, accountId: int)
    requires Consistent(s)
    requires accountId in s.accounts
    ensures s.accounts[accountId].balance == LatestBalance(s.ops, accountId, s.opening[accountId])
  {
    LatestIsReplay(s.ops, s.opening, accountId);
  }

  /** Appending one operation whose snapshot extends the chain keeps the chain. */
  lemma ChainAppend(ops: seq<Operation>, opening: map<int, int>, o: Operation)
    requires SnapshotsChain(ops, opening)
    requires o.accountId in opening
    requires o.balanceAfter == opening[o.accountId] + NetFlow(ops + [o], o.accountId)
    ensures SnapshotsChain(ops + [o], opening)
  {
    var ops' := ops + [o];
    forall i | 0 <= i < |ops'|
      ensures ops'[i].accountId in opening
      ensures ops'[i].balanceAfter == opening[ops'[i].accountId] + NetFlow(ops'[..i + 1], ops'[i].accountId)
    {
      if i < |ops| {
        assert ops'[..i + 1] == ops[..i + 1];
      } else {
        assert ops'[..i + 1] == ops';
      }
    }
  }

  /** Opening a new account does not disturb the chain of the others. */
  lemma ChainNewAccount(ops: seq<Operation>, opening: map<int, int>, accountId: int, balance: int)
    requires SnapshotsChain(ops, opening)
    requires accountId !in opening
    ensures SnapshotsChain(ops, opening[accountId := balance])
  {
  }

  /** An account no operation references has a net flow of zero. */
  lemma {:induction false} NetFlowUntouched(ops: seq<Operation>, accountId: int)
    requires forall i :: 0 <= i < |ops| ==> ops[i].accountId != accountId
    ensures NetFlow(ops, accountId) == 0
  {
    if ops != [] {
      NetFlowUntouched(ops[..|ops| - 1], accountId);
    }
  }
}
