/**
 * The account lifecycle of the accounts endpoints: creation under the
 * one-active-account-per-type rule, soft deactivation, and the read-only
 * lookup and listing.
 */
module Accounts {
  import opened Outcomes
  import opened Models
  import opened Queries
  import opened Store
  import Schemas

  // ---------------------------------------------------------------------------
  // Creation and deactivation

  /** A create-account request, applied to the store as one transaction. */
  function CreateAccount(s: State, req: Schemas.AccountCreate, now: int): (r: (State, Result<Account>))
    ensures r.1.Err? ==> r.0 == s
    ensures r.1 == Err(Duplicate) <==> HasActive(s.accounts, req.userId, req.accountType)
    ensures r.1 == Err(ColumnOverflow) <==>
      !HasActive(s.accounts, req.userId, req.accountType)
      && !(FitsNumeric(req.initialBalance) && FitsNumeric(req.dailyLimit))
    ensures r.1.Ok? <==>
      !HasActive(s.accounts, req.userId, req.accountType)
      && FitsNumeric(req.initialBalance) && FitsNumeric(req.dailyLimit)
    ensures r.1.Ok? ==>
      var a := r.1.value;
      && a.id == s.nextAccountId
      && a.userId == req.userId
      && a.accountType == req.accountType
      && a.balance == req.initialBalance
      && a.dailyLimit == req.dailyLimit
      && a.isActive
      && a.createdAt == now
      && r.0.accounts == s.accounts[a.id := a]
      && r.0.ops == s.ops
      && r.0.nextAccountId == s.nextAccountId + 1
      && r.0.nextOperationId == s.nextOperationId
      && r.0.opening == s.opening[a.id := req.initialBalance]
  {
    if HasActive(s.accounts, req.userId, req.accountType) then (s, Err(Duplicate))
    else if !(FitsNumeric(req.initialBalance) && FitsNumeric(req.dailyLimit)) then (s, Err(ColumnOverflow))
    else
      var a := NewAccountRow(s.nextAccountId, req.userId, now, req.accountType,
                             req.initialBalance, req.dailyLimit, true);
      (s.(accounts := s.accounts[a.id := a],
          nextAccountId := s.nextAccountId + 1,
          opening := s.opening[a.id := req.initialBalance]),
       Ok(a))
  }

  /** A deactivation request: only an existing, active account can be deactivated. */
  function Deactivate(s: State, accountId: int): (r: (State, Outcome))
    ensures r.1.Fail? ==> r.0 == s
    ensures r.1 == Fail(NotFound) <==> accountId !in s.accounts
    ensures r.1 == Fail(AlreadyInactive) <==> accountId in s.accounts && !s.accounts[accountId].isActive
    ensures r.1.Pass? <==> accountId in s.accounts && s.accounts[accountId].isActive
    ensures r.1.Pass? ==>
      && accountId in s.accounts
      && r.0 == s.(accounts := s.accounts[accountId := s.accounts[accountId].(isActive := false)])
  {
    if accountId !in s.accounts then (s, Fail(NotFound))
    else if !s.accounts[accountId].isActive then (s, Fail(AlreadyInactive))
    else (s.(accounts := s.accounts[accountId := s.accounts[accountId].(isActive := false)]), Pass)
  }

  /** In a consistent store a new account gets an id no account has, and is the only row added. */
  lemma CreateAddsOneAccount(s: State, req: Schemas.AccountCreate, now: int)
    requires Consistent(s)
    ensures var r := CreateAccount(s, req, now);
      r.1.Ok? ==>
        && r.1.value.id !in s.accounts
        && r.0.accounts.Keys == s.accounts.Keys + {r.1.value.id}
        && |r.0.accounts| == |s.accounts| + 1
  {
    var r := CreateAccount(s, req, now);
    if r.1.Ok? {
      assert s.nextAccountId !in s.accounts;
    }
  }

  lemma CreatePreservesConsistency(s: State, req: Schemas.AccountCreate, now: int)
    requires Consistent(s)
    requires Schemas.AdmissibleAccountCreate(req)
    ensures Consistent(CreateAccount(s, req, now).0)
  {
    var r := CreateAccount(s, req, now);
    if r.1.Ok? {
      var a := r.1.value;
      var s' := r.0;
      assert a.id !in s.accounts;
      forall i | 0 <= i < |s.ops| ensures s.ops[i].accountId != a.id {
        assert s.ops[i].accountId in s.accounts;
      }
      NetFlowUntouched(s.ops, a.id);
      ChainNewAccount(s.ops, s.opening, a.id, req.initialBalance);
      assert AccountsWellFormed(s');
      assert BalancesReplay(s');
      assert UniqueActive(s'.accounts) by {
        forall i, j | i in s'.accounts && j in s'.accounts && i != j
          && s'.accounts[i].isActive && s'.accounts[j].isActive
          && s'.accounts[i].userId == s'.accounts[j].userId
          ensures s'.accounts[i].accountType != s'.accounts[j].accountType
        {
          if i == a.id {
            assert !(s.accounts[j].isActive && s.accounts[j].userId == req.userId && s.accounts[j].accountType == req.accountType);
          } else if j == a.id {
            assert !(s.accounts[i].isActive && s.accounts[i].userId == req.userId && s.accounts[i].accountType == req.accountType);
          }
        }
      }
    }
  }

  /** Creating an account with a positive limit keeps every amount and limit positive. */
  lemma CreateKeepsPositiveAmounts(s: State, req: Schemas.AccountCreate, now: int)
    requires PositiveAmounts(s)
    requires Schemas.ValidAccountCreate(req)
    ensures PositiveAmounts(CreateAccount(s, req, now).0)
  {
  }

  lemma DeactivateKeepsPositiveAmounts(s: State, accountId: int)
    requires PositiveAmounts(s)
    ensures PositiveAmounts(Deactivate(s, accountId).0)
  {
  }

  lemma DeactivatePreservesConsistency(s: State, accountId: int)
    requires Consistent(s)
    ensures Consistent(Deactivate(s, accountId).0)
  {
    var r := Deactivate(s, accountId);
    if r.1.Pass? {
      assert BalancesReplay(r.0);
      assert UniqueActive(r.0.accounts);
    }
  }

  // ---------------------------------------------------------------------------
  // Read-only queries

  /** Looks an account up by id, whether it is active or not. */
  function GetAccount(accounts: map<int, Account>, accountId: int): (r: Result<Account>)
    ensures r.Ok? <==> accountId in accounts
    ensures r.Ok? ==> r.value == accounts[accountId]
    ensures r.Err? ==> r.error == NotFound
  {
    if accountId in accounts then Ok(accounts[accountId]) else Err(NotFound)
  }

  /** The account rows with ids 1 .. n - 1. */
  function Rows(accounts: map<int, Account>, n: int): (r: seq<Account>)
    decreases n
    ensures |r| <= if n > 1 then n - 1 else 0
    ensures forall id :: 1 <= id < n && id in accounts ==> accounts[id] in r
    ensures forall a :: a in r ==> a in accounts.Values
  {
    if n <= 1 then []
    else
      var prefix := Rows(accounts, n - 1);
      if n - 1 in accounts then prefix + [accounts[n - 1]] else prefix
  }

  /** The scan holds only rows whose id lies below the bound. */
  lemma {:induction false} RowsBelow(accounts: map<int, Account>, n: int)
    decreases n
    ensures forall a :: a in Rows(accounts, n) ==> exists id :: 1 <= id < n && id in accounts && accounts[id] == a
  {
    if n > 1 {
      RowsBelow(accounts, n - 1);
    }
  }

  /**
   * When every row is stored under its own id, the scan holds each row with an
   * id below the bound exactly once, and no other row.
   */
  lemma {:induction false} RowsMultiplicity(accounts: map<int, Account>, n: int)
    requires forall id :: id in accounts ==> accounts[id].id == id
    decreases n
    ensures forall a :: multiset(Rows(accounts, n))[a] ==
                if 1 <= a.id < n && a.id in accounts && accounts[a.id] == a then 1 else 0
  {
    if n > 1 {
      RowsMultiplicity(accounts, n - 1);
      if n - 1 in accounts {
        assert multiset(Rows(accounts, n)) == multiset(Rows(accounts, n - 1)) + multiset{accounts[n - 1]};
      }
    }
  }

  /** The account shows up in a listing filtered by the optional user id. */
  predicate Listed(a: Account, userId: Option<int>) {
    a.isActive && (FiltersOnId(userId) ==> a.userId == userId.value)
  }

  /** The active accounts that pass the filter. */
  function SelectListed(rows: seq<Account>, userId: Option<int>): (r: seq<Account>)
    ensures |r| <= |rows|
    ensures forall a :: a in r <==> a in rows && Listed(a, userId)
  {
    if rows == [] then []
    else
      var prefix := SelectListed(rows[..|rows| - 1], userId);
      var last := rows[|rows| - 1];
      assert rows == rows[..|rows| - 1] + [last];
      if Listed(last, userId) then prefix + [last] else prefix
  }

  /** The listed rows hold each row that passes the filter exactly as often as the scan does, and nothing else. */
  lemma {:induction false} SelectListedMultiplicity(rows: seq<Account>, userId: Option<int>)
    ensures forall a :: multiset(SelectListed(rows, userId))[a] == if Listed(a, userId) then multiset(rows)[a] else 0
  {
    if rows != [] {
      var prefix, last := rows[..|rows| - 1], rows[|rows| - 1];
      SelectListedMultiplicity(prefix, userId);
      assert rows == prefix + [last];
      assert multiset(rows) == multiset(prefix) + multiset{last};
    }
  }

  /** The rows the account listing chooses from: the active rows below nextId that pass the user filter. */
  function ListedRows(accounts: map<int, Account>, nextId: int, userId: Option<int>): (r: seq<Account>)
    ensures forall a :: a in r ==> a in accounts.Values && Listed(a, userId)
  {
    SelectListed(Rows(accounts, nextId), userId)
  }

  /**
   * The account listing over the ids below nextId: active accounts only, of
   * one user when a non-zero user id is given, newest first, then skip and limit.
   */
  function ListAccounts(accounts: map<int, Account>, nextId: int, userId: Option<int>, skip: nat, limit: nat): (r: seq<Account>)
    ensures |r| <= limit
    ensures SortedDesc(r, CreatedAt)
    ensures forall a :: a in r ==> a in accounts.Values && Listed(a, userId)
    ensures IsPageOf(r, ListedRows(accounts, nextId, userId), skip, limit, CreatedAt)
    ensures var n := |ListedRows(accounts, nextId, userId)|;
      |r| == if skip < n then Min(limit, n - skip) else 0
    ensures skip == 0 && |ListedRows(accounts, nextId, userId)| <= limit ==>
      multiset(r) == multiset(ListedRows(accounts, nextId, userId))
  {
    OrderedPage(ListedRows(accounts, nextId, userId), CreatedAt, skip, limit)
  }

  /** A first page with room for every listed account shows each account below nextId that passes the filter. */
  lemma ListAccountsComplete(accounts: map<int, Account>, nextId: int, userId: Option<int>, limit: nat)
    requires |ListedRows(accounts, nextId, userId)| <= limit
    ensures forall id :: 1 <= id < nextId && id in accounts && Listed(accounts[id], userId) ==>
      accounts[id] in ListAccounts(accounts, nextId, userId, 0, limit)
  {
    var chosen := ListedRows(accounts, nextId, userId);
    var page := ListAccounts(accounts, nextId, userId, 0, limit);
    forall id | 1 <= id < nextId && id in accounts && Listed(accounts[id], userId)
      ensures accounts[id] in page
    {
      assert accounts[id] in chosen;
      assert accounts[id] in multiset(chosen);
    }
  }

  /**
   * Paging through the account listing loses no row and repeats none, as long
   * as every query orders accounts with equal creation times the same way.
   */
  lemma AccountPagesConcatenate(accounts: map<int, Account>, nextId: int, userId: Option<int>, skip: nat, a: nat, b: nat)
    ensures ListAccounts(accounts, nextId, userId, skip, a) + ListAccounts(accounts, nextId, userId, skip + a, b) ==
      ListAccounts(accounts, nextId, userId, skip, a + b)
  {
    OrderedPagesConcatenate(ListedRows(accounts, nextId, userId), CreatedAt, skip, a, b);
  }
}
