/** The ledger as a value: the ACCOUNT balances, the append-only TRANSACTION
    log and the next identity value, and what one deposit, withdraw or transfer
    does to it. Each operation either commits all of its writes or leaves the
    ledger exactly as it was; `locked` lists the account rows it locked, in the
    order it locked them. */
module Ledger {
  import opened Domain
  import opened ErrorCodesTranslator
  import History

  datatype LedgerState = LedgerState(
    balances: map<AccountId, Cents>,
    log: seq<Txn>,
    nextId: TxnId)

  /** The reply code, the ledger afterwards, and the rows locked on the way. */
  datatype Step = Step(outcome: Outcome, after: LedgerState, locked: seq<AccountId>)

  /** A record may only name accounts that exist (the foreign keys). */
  predicate References(balances: map<AccountId, Cents>, t: Txn)
  {
    t.destination in balances && (t.source.Some? ==> t.source.value in balances)
  }

  /** Structural invariant of the store: identities increase along the log and
      stay below the next one, and every record names existing accounts. */
  ghost predicate Valid(s: LedgerState)
  {
    && (forall i :: 0 <= i < |s.log| ==> s.log[i].id < s.nextId && References(s.balances, s.log[i]))
    && (forall i, j :: 0 <= i < j < |s.log| ==> s.log[i].id < s.log[j].id)
  }

  /** The business invariant: no balance is negative. */
  ghost predicate NonNegative(balances: map<AccountId, Cents>)
  {
    forall id :: id in balances ==> balances[id] >= 0
  }

  /** A ledger whose accounts were all just opened: every balance starts at 0. */
  function Opened(accounts: set<AccountId>): (s: LedgerState)
    ensures s.balances.Keys == accounts && s.log == [] && s.nextId == 0
    ensures forall id :: id in s.balances ==> s.balances[id] == 0
    ensures NonNegative(s.balances) && Valid(s)
  {
    LedgerState(map id | id in accounts :: 0, [], 0)
  }

  function Min(a: AccountId, b: AccountId): AccountId { if a <= b then a else b }
  function Max(a: AccountId, b: AccountId): AccountId { if a <= b then b else a }

  /** The order in which a transfer locks its two rows: lower id first. */
  function LockOrder(source: AccountId, destination: AccountId): (order: seq<AccountId>)
    ensures |order| == 2 && order[0] <= order[1]
    ensures multiset(order) == multiset{source, destination}
  {
    [Min(source, destination), Max(source, destination)]
  }

  /** The state after one committed record has been appended. */
  function Append(s: LedgerState, balances: map<AccountId, Cents>, source: Option<AccountId>,
                  destination: AccountId, amount: Cents, kind: TransactionType, now: Time): LedgerState
  {
    LedgerState(balances, s.log + [Txn(s.nextId, source, destination, amount, kind, now)], s.nextId + 1)
  }

  /** `DECREASE_ACCOUNT_BALANCE_SQL` on an existing row. */
  function Debit(balances: map<AccountId, Cents>, id: AccountId, amount: Cents): map<AccountId, Cents>
    requires id in balances
  {
    balances[id := balances[id] - amount]
  }

  /** `INCREASE_ACCOUNT_BALANCE_SQL` on an existing row. */
  function Credit(balances: map<AccountId, Cents>, id: AccountId, amount: Cents): map<AccountId, Cents>
    requires id in balances
  {
    balances[id := balances[id] + amount]
  }

  /** Deposit: lock the destination; if it exists, credit it and log a DEPOSIT. */
  function Deposit(s: LedgerState, destination: AccountId, amount: Cents, now: Time): (r: Step)
    ensures r.locked == [destination]
    ensures r.outcome == (if destination in s.balances then Ok else AccountDoesntExist)
    ensures r.outcome != Ok ==> r.after == s
    ensures r.outcome == Ok ==>
              && r.after.balances.Keys == s.balances.Keys
              && r.after.balances[destination] == s.balances[destination] + amount
              && (forall id :: id in s.balances && id != destination ==> r.after.balances[id] == s.balances[id])
              && r.after.log == s.log + [Txn(s.nextId, None, destination, amount, DEPOSIT, now)]
  {
    if destination !in s.balances then Step(AccountDoesntExist, s, [destination])
    else
      Step(Ok, Append(s, Credit(s.balances, destination, amount), None, destination, amount, DEPOSIT, now),
           [destination])
  }

  /** Withdraw: lock the account; it must exist and hold at least `amount`. */
  function Withdraw(s: LedgerState, destination: AccountId, amount: Cents, now: Time): (r: Step)
    ensures r.locked == [destination]
    ensures r.outcome == Ok || r.outcome == AccountDoesntExist || r.outcome == InsufficientFunds
    ensures r.outcome == AccountDoesntExist <==> destination !in s.balances
    ensures r.outcome == InsufficientFunds <==> destination in s.balances && s.balances[destination] < amount
    ensures r.outcome != Ok ==> r.after == s
    ensures r.outcome == Ok ==>
              && r.after.balances.Keys == s.balances.Keys
              && r.after.balances[destination] == s.balances[destination] - amount
              && (forall id :: id in s.balances && id != destination ==> r.after.balances[id] == s.balances[id])
              && r.after.log == s.log + [Txn(s.nextId, None, destination, amount, WITHDRAW, now)]
  {
    if destination !in s.balances then Step(AccountDoesntExist, s, [destination])
    else if s.balances[destination] < amount then Step(InsufficientFunds, s, [destination])
    else
      Step(Ok, Append(s, Debit(s.balances, destination, amount), None, destination, amount, WITHDRAW, now),
           [destination])
  }

  /** The rows a transfer locks: the lower id, then, only if that account
      exists, the higher one. */
  function TransferLocks(s: LedgerState, source: AccountId, destination: AccountId): (locked: seq<AccountId>)
    ensures locked == if Min(source, destination) in s.balances then LockOrder(source, destination)
                      else [LockOrder(source, destination)[0]]
  {
    var order := LockOrder(source, destination);
    if order[0] !in s.balances then [order[0]] else order
  }

  /** The balances after `amount` has been taken from `source` and given to
      `destination` (`updateBalances`' two UPDATEs, in that order). */
  function Move(balances: map<AccountId, Cents>, source: AccountId, destination: AccountId, amount: Cents)
    : (b: map<AccountId, Cents>)
    requires source in balances && destination in balances
    ensures b.Keys == balances.Keys
    ensures source != destination ==>
              b[source] == balances[source] - amount && b[destination] == balances[destination] + amount
    ensures forall id :: id in balances && id != source && id != destination ==> b[id] == balances[id]
  {
    Credit(Debit(balances, source, amount), destination, amount)
  }

  /** Transfer, stated without reference to the lock order: both accounts must
      exist and the source must hold at least `amount`; then the source is
      debited, the destination credited and one TRANSFER record appended. */
  function Transfer(s: LedgerState, source: AccountId, destination: AccountId, amount: Cents, now: Time): (r: Step)
    ensures r.locked == TransferLocks(s, source, destination)
    ensures r.outcome == Ok || r.outcome == AccountDoesntExist || r.outcome == InsufficientFunds
    ensures r.outcome == AccountDoesntExist <==> source !in s.balances || destination !in s.balances
    ensures r.outcome == InsufficientFunds <==>
              source in s.balances && destination in s.balances && s.balances[source] < amount
    ensures r.outcome != Ok ==> r.after == s
    ensures r.outcome == Ok ==>
              && r.after.balances.Keys == s.balances.Keys
              && (source != destination ==>
                    && r.after.balances[source] == s.balances[source] - amount
                    && r.after.balances[destination] == s.balances[destination] + amount)
              && (forall id :: id in s.balances && id != source && id != destination ==>
                    r.after.balances[id] == s.balances[id])
              && r.after.log == s.log + [Txn(s.nextId, Some(source), destination, amount, TRANSFER, now)]
  {
    var locked := TransferLocks(s, source, destination);
    if source !in s.balances || destination !in s.balances then Step(AccountDoesntExist, s, locked)
    else if s.balances[source] < amount then Step(InsufficientFunds, s, locked)
    else
      var b := Move(s.balances, source, destination, amount);
      Step(Ok, Append(s, b, Some(source), destination, amount, TRANSFER, now), locked)
  }

  // ---------------------------------------------------------------------------
  // Lock order

  /** A→B and B→A lock the same rows in the same order, whatever the amounts,
      and a transfer never locks a higher id before a lower one. */
  lemma TransferLockOrderSymmetric(s: LedgerState, a: AccountId, b: AccountId,
                                   x: Cents, y: Cents, t: Time, u: Time)
    ensures Transfer(s, a, b, x, t).locked == Transfer(s, b, a, y, u).locked
    ensures forall i, j :: 0 <= i < j < |Transfer(s, a, b, x, t).locked| ==>
              Transfer(s, a, b, x, t).locked[i] <= Transfer(s, a, b, x, t).locked[j]
  {
    assert LockOrder(a, b) == LockOrder(b, a);
  }

  // The order-free rule, step by step as the repository takes its locks.

  /** The lower id is missing: only that row was locked, nothing changes. */
  lemma TransferFirstLockFails(s: LedgerState, source: AccountId, destination: AccountId, amount: Cents, now: Time)
    requires Min(source, destination) !in s.balances
    ensures Transfer(s, source, destination, amount, now) == Step(AccountDoesntExist, s, [Min(source, destination)])
  {
  }

  /** The lower id exists but the higher is missing: both rows were locked,
      nothing changes. */
  lemma TransferSecondLockFails(s: LedgerState, source: AccountId, destination: AccountId, amount: Cents, now: Time)
    requires Min(source, destination) in s.balances && Max(source, destination) !in s.balances
    ensures Transfer(s, source, destination, amount, now) ==
              Step(AccountDoesntExist, s, [Min(source, destination), Max(source, destination)])
  {
  }

  /** Both rows locked, the source short: nothing changes. */
  lemma TransferFundsCheckFails(s: LedgerState, source: AccountId, destination: AccountId, amount: Cents, now: Time)
    requires source in s.balances && destination in s.balances && s.balances[source] < amount
    ensures Transfer(s, source, destination, amount, now) ==
              Step(InsufficientFunds, s, [Min(source, destination), Max(source, destination)])
  {
  }

  /** Both rows locked, the source covers the amount: debit, credit, log. */
  lemma TransferCommits(s: LedgerState, source: AccountId, destination: AccountId, amount: Cents, now: Time)
    requires source in s.balances && destination in s.balances && s.balances[source] >= amount
    ensures Transfer(s, source, destination, amount, now) ==
              Step(Ok, Append(s, Move(s.balances, source, destination, amount),
                              Some(source), destination, amount, TRANSFER, now),
                   [Min(source, destination), Max(source, destination)])
  {
  }

  // ---------------------------------------------------------------------------
  // Sum of balances

  /** The sum of all balances. */
  ghost function Total(balances: map<AccountId, Cents>): int
    decreases |balances|
  {
    if |balances| == 0 then 0
    else
      var id := AnyAccount(balances);
      balances[id] + Total(balances - {id})
  }

  /** Some account of a non-empty balance table. */
  ghost function AnyAccount(balances: map<AccountId, Cents>): (id: AccountId)
    requires |balances| != 0
    ensures id in balances
  {
    assert exists id :: id in balances by {
      if forall id :: id !in balances { assert false; }
    }
    var id :| id in balances;
    id
  }

  /** Any account can be taken out of the sum first. */
  lemma {:induction false} TotalRemove(balances: map<AccountId, Cents>, id: AccountId)
    requires id in balances
    ensures Total(balances) == balances[id] + Total(balances - {id})
    decreases |balances|
  {
    var chosen := AnyAccount(balances);
    if chosen != id {
      assert balances - {chosen} - {id} == balances - {id} - {chosen};
      TotalRemove(balances - {chosen}, id);
      TotalRemove(balances - {id}, chosen);
    }
  }

  /** Setting one existing balance changes the sum by the difference. */
  lemma TotalUpdate(balances: map<AccountId, Cents>, id: AccountId, value: Cents)
    requires id in balances
    ensures Total(balances[id := value]) == Total(balances) - balances[id] + value
  {
    TotalRemove(balances, id);
    TotalRemove(balances[id := value], id);
    assert balances[id := value] - {id} == balances - {id};
  }

  /** A successful deposit adds `amount` to the money in the ledger, a
      successful withdraw removes it, and a transfer moves money without
      creating or destroying any. Failures change nothing. */
  lemma DepositTotal(s: LedgerState, destination: AccountId, amount: Cents, now: Time)
    ensures var r := Deposit(s, destination, amount, now);
            Total(r.after.balances) == Total(s.balances) + (if r.outcome == Ok then amount else 0)
  {
    if destination in s.balances {
      CreditTotal(s.balances, destination, amount);
    }
  }

  lemma WithdrawTotal(s: LedgerState, destination: AccountId, amount: Cents, now: Time)
    ensures var r := Withdraw(s, destination, amount, now);
            Total(r.after.balances) == Total(s.balances) - (if r.outcome == Ok then amount else 0)
  {
    if destination in s.balances && s.balances[destination] >= amount {
      DebitTotal(s.balances, destination, amount);
    }
  }

  /** A debit lowers the sum by the amount, a credit raises it by the amount. */
  lemma DebitTotal(balances: map<AccountId, Cents>, id: AccountId, amount: Cents)
    requires id in balances
    ensures Total(Debit(balances, id, amount)) == Total(balances) - amount
  {
    TotalUpdate(balances, id, balances[id] - amount);
  }

  lemma CreditTotal(balances: map<AccountId, Cents>, id: AccountId, amount: Cents)
    requires id in balances
    ensures Total(Credit(balances, id, amount)) == Total(balances) + amount
  {
    TotalUpdate(balances, id, balances[id] + amount);
  }

  /** Debiting one account and crediting another by the same amount leaves
      the sum unchanged, also when they are the same account. */
  lemma MoveKeepsTotal(balances: map<AccountId, Cents>, source: AccountId, destination: AccountId, amount: Cents)
    requires source in balances && destination in balances
    ensures Total(Move(balances, source, destination, amount)) == Total(balances)
  {
    DebitTotal(balances, source, amount);
    CreditTotal(Debit(balances, source, amount), destination, amount);
  }

  lemma TransferConservesTotal(s: LedgerState, source: AccountId, destination: AccountId, amount: Cents, now: Time)
    ensures Total(Transfer(s, source, destination, amount, now).after.balances) == Total(s.balances)
  {
    if source in s.balances && destination in s.balances && s.balances[source] >= amount {
      TransferCommits(s, source, destination, amount, now);
      MoveKeepsTotal(s.balances, source, destination, amount);
    }
  }

  // ---------------------------------------------------------------------------
  // Invariants

  /** Appending a record stamped with the next identity keeps the log valid. */
  lemma AppendValid(s: LedgerState, balances: map<AccountId, Cents>, source: Option<AccountId>,
                    destination: AccountId, amount: Cents, kind: TransactionType, now: Time)
    requires Valid(s) && balances.Keys == s.balances.Keys
    requires References(balances, Txn(s.nextId, source, destination, amount, kind, now))
    ensures Valid(Append(s, balances, source, destination, amount, kind, now))
  {
    var a := Append(s, balances, source, destination, amount, kind, now);
    forall i | 0 <= i < |a.log|
      ensures a.log[i].id < a.nextId && References(a.balances, a.log[i])
    {
      if i < |s.log| { assert a.log[i] == s.log[i]; }
    }
  }

  lemma DepositValid(s: LedgerState, destination: AccountId, amount: Cents, now: Time)
    requires Valid(s)
    ensures Valid(Deposit(s, destination, amount, now).after)
  {
    if destination in s.balances {
      AppendValid(s, s.balances[destination := s.balances[destination] + amount], None, destination, amount, DEPOSIT, now);
    }
  }

  lemma WithdrawValid(s: LedgerState, destination: AccountId, amount: Cents, now: Time)
    requires Valid(s)
    ensures Valid(Withdraw(s, destination, amount, now).after)
  {
    if destination in s.balances && s.balances[destination] >= amount {
      AppendValid(s, s.balances[destination := s.balances[destination] - amount], None, destination, amount, WITHDRAW, now);
    }
  }

  lemma TransferValid(s: LedgerState, source: AccountId, destination: AccountId, amount: Cents, now: Time)
    requires Valid(s)
    ensures Valid(Transfer(s, source, destination, amount, now).after)
  {
    if source in s.balances && destination in s.balances && s.balances[source] >= amount {
      AppendValid(s, Move(s.balances, source, destination, amount), Some(source), destination, amount, TRANSFER, now);
    }
  }

  /** With a positive amount no operation drives a balance below zero: credits
      only add, and debits happen only when the balance covers the amount. */
  lemma DepositNonNegative(s: LedgerState, destination: AccountId, amount: Cents, now: Time)
    requires NonNegative(s.balances) && amount > 0
    ensures NonNegative(Deposit(s, destination, amount, now).after.balances)
  {
  }

  lemma WithdrawNonNegative(s: LedgerState, destination: AccountId, amount: Cents, now: Time)
    requires NonNegative(s.balances)
    ensures NonNegative(Withdraw(s, destination, amount, now).after.balances)
  {
  }

  lemma TransferNonNegative(s: LedgerState, source: AccountId, destination: AccountId, amount: Cents, now: Time)
    requires NonNegative(s.balances) && amount > 0
    ensures NonNegative(Transfer(s, source, destination, amount, now).after.balances)
  {
  }

  /** A transfer from an account to itself is accepted: it locks the same row
      twice, leaves every balance as it was and still logs one TRANSFER record
      naming the account on both sides. */
  lemma SelfTransfer(s: LedgerState, account: AccountId, amount: Cents, now: Time)
    requires account in s.balances && s.balances[account] >= amount
    ensures var r := Transfer(s, account, account, amount, now);
            && r.outcome == Ok
            && r.locked == [account, account]
            && r.after.balances == s.balances
            && r.after.log == s.log + [Txn(s.nextId, Some(account), account, amount, TRANSFER, now)]
  {
    assert Move(s.balances, account, account, amount) == s.balances;
  }

  /** In a valid log no record occurs twice (their ids differ), and a record
      stamped with the next id is not there yet. */
  lemma {:induction false} ValidLogOnce(log: seq<Txn>, nextId: TxnId, x: Txn)
    requires forall i :: 0 <= i < |log| ==> log[i].id < nextId
    requires forall i, j :: 0 <= i < j < |log| ==> log[i].id < log[j].id
    ensures multiset(log)[x] == (if x in log then 1 else 0)
    ensures x.id == nextId ==> x !in log
    decreases |log|
  {
    if log != [] {
      var last := log[|log| - 1];
      var init := log[..|log| - 1];
      assert log == init + [last];
      ValidLogOnce(init, last.id, x);
      assert x == last ==> x !in init;
    }
  }

  /** The history of an account after it transferred to itself shows the new
      TRANSFER record twice: once as outgoing and once as incoming. */
  lemma SelfTransferShownTwice(s: LedgerState, account: AccountId, amount: Cents, now: Time,
                               req: FetchTransactionsRequest)
    requires Valid(s)
    requires account in s.balances && s.balances[account] >= amount
    requires req.accountId == account && History.IsTransactionInRange(req, Txn(s.nextId, Some(account), account, amount, TRANSFER, now))
    ensures var record := Txn(s.nextId, Some(account), account, amount, TRANSFER, now);
            multiset(History.ListTransactions(Transfer(s, account, account, amount, now).after.log, req))[record] == 2
  {
    var record := Txn(s.nextId, Some(account), account, amount, TRANSFER, now);
    var after := Transfer(s, account, account, amount, now).after;
    ValidLogOnce(s.log, s.nextId, record);
    assert multiset(after.log)[record] == 1;
    History.ListTransactionsCount(after.log, req, record);
  }
}
