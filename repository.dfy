/** The ledger engine as the repository runs it: row locks taken one at a time,
    existence and funds read from the locked rows, then the balance updates and
    the insert of the record. A business failure (missing account, short
    funds) is returned as its code before any write. Each method is proved
    to do exactly what the order-free rule of the same name in `Ledger` says. */
module Repository {
  import opened Domain
  import opened ErrorCodesTranslator
  import opened Ledger
  import History

  /** `LOCK_ACCOUNT_ID_SQL`: the (zero or one) account rows with this id. */
  function SelectForUpdate(balances: map<AccountId, Cents>, id: AccountId): (rows: seq<AccountRow>)
    ensures |rows| <= 1 && (|rows| == 1 <==> id in balances)
    ensures |rows| == 1 ==> rows[0] == AccountRow(id, balances[id])
  {
    if id in balances then [AccountRow(id, balances[id])] else []
  }

  /** `accountExists`: the lock query found the row. */
  predicate AccountExists(rows: seq<AccountRow>)
  {
    |rows| == 1
  }

  /** `sufficientFunds(accountRs, transaction)`: the row's balance covers the amount. */
  predicate SufficientFunds(rows: seq<AccountRow>, amount: Cents)
    requires |rows| >= 1
  {
    rows[0].balance >= amount
  }

  /** `getResultSetByAccountId`: the first result set if its row has the id,
      otherwise the second. */
  function ResultSetByAccountId(first: seq<AccountRow>, second: seq<AccountRow>, id: AccountId): seq<AccountRow>
    requires |first| >= 1
  {
    if id == first[0].id then first else second
  }

  /** `sufficientFunds(firstAccountRs, secondAccountRs, transaction)`: the funds
      check of a transfer, made on whichever locked row is the source's. */
  predicate SufficientFundsOfSource(first: seq<AccountRow>, second: seq<AccountRow>, source: AccountId, amount: Cents)
    requires |first| >= 1 && |second| >= 1
  {
    SufficientFunds(ResultSetByAccountId(first, second, source), amount)
  }

  /** Whichever of the two accounts was locked first, the transfer's funds
      check reads the source's balance. */
  lemma SufficientFundsReadsSource(balances: map<AccountId, Cents>, source: AccountId, destination: AccountId, amount: Cents)
    requires source in balances && destination in balances
    ensures var first := SelectForUpdate(balances, Min(source, destination));
            var second := SelectForUpdate(balances, Max(source, destination));
            && ResultSetByAccountId(first, second, source) == SelectForUpdate(balances, source)
            && (SufficientFundsOfSource(first, second, source, amount) <==> balances[source] >= amount)
  {
  }

  /** How the reactive chain of an operation ended: with a result code, or
      with an exception (a store failure). */
  datatype Completion = Completed(code: int) | Raised

  /** What the requester receives on the event bus. */
  datatype Reply = Replied(body: string) | Failed(code: int, message: string)

  /** `handleTransactionResult`: code 0 is a success reply; any other code is a
      failure with that code and its translated message; an exception is a
      TECHNICAL_ERROR failure. */
  function HandleTransactionResult(c: Completion): (reply: Reply)
    ensures reply.Replied? <==> c == Completed(OK)
    ensures reply.Replied? ==> reply.body == ""
    ensures reply.Failed? ==> reply.code != OK && reply.message == TranslateErrorCode(reply.code)
    ensures c.Completed? && c.code != OK ==> reply.Failed? && reply.code == c.code
    ensures c.Raised? ==> reply == Failed(TECHNICAL_ERROR, TECHNICAL_ERROR_MESSAGE)
  {
    match c
    case Completed(code) =>
      if code == 0 then Replied("") else Failed(code, TranslateErrorCode(code))
    case Raised => Failed(TECHNICAL_ERROR, "Technical error")
  }

  /** Every engine outcome is replied to as success exactly when it is `Ok`,
      and each business failure carries its own message. */
  lemma HandleOutcome(o: Outcome)
    ensures HandleTransactionResult(Completed(o.Code())).Replied? <==> o == Ok
    ensures o == InsufficientFunds ==>
              HandleTransactionResult(Completed(o.Code())) == Failed(INSUFFICIENT_FUNDS, INSUFFICIENT_FUNDS_MESSAGE)
    ensures o == AccountDoesntExist ==>
              HandleTransactionResult(Completed(o.Code())) == Failed(ACCOUNT_DOESNT_EXIST, ACCOUNT_DOESNT_EXIST_MESSAGE)
  {
  }

  class TransactionsRepository {
    /** The ACCOUNT table: balance by account id. */
    var balances: map<AccountId, Cents>
    /** The TRANSACTION table, in insertion order. */
    var log: seq<Txn>
    /** The TRANSACTION table's next identity value. */
    var nextId: TxnId

    function State(): LedgerState
      reads this
    {
      LedgerState(balances, log, nextId)
    }

    /** A store whose accounts have all just been opened, each with balance 0. */
    constructor (accounts: set<AccountId>)
      ensures State() == Opened(accounts)
    {
      balances := map id | id in accounts :: 0;
      log := [];
      nextId := 0;
    }

    /** `INCREASE_ACCOUNT_BALANCE_SQL`; an UPDATE that matches no row changes nothing. */
    method IncreaseBalance(id: AccountId, amount: Cents)
      modifies this`balances
      ensures balances == if id in old(balances) then Credit(old(balances), id, amount) else old(balances)
    {
      if id in balances {
        balances := balances[id := balances[id] + amount];
      }
    }

    /** `DECREASE_ACCOUNT_BALANCE_SQL`. */
    method DecreaseBalance(id: AccountId, amount: Cents)
      modifies this`balances
      ensures balances == if id in old(balances) then Debit(old(balances), id, amount) else old(balances)
    {
      if id in balances {
        balances := balances[id := balances[id] - amount];
      }
    }

    /** `INSERT_TRANSACTION_SQL` / `INSERT_TRANSFER_TRANSACTION_SQL`: the store
        assigns the next identity and stamps the time. */
    method InsertTransaction(source: Option<AccountId>, destination: AccountId, kind: TransactionType,
                             amount: Cents, now: Time)
      modifies this`log, this`nextId
      ensures log == old(log) + [Txn(old(nextId), source, destination, amount, kind, now)]
      ensures nextId == old(nextId) + 1
    {
      log := log + [Txn(nextId, source, destination, amount, kind, now)];
      nextId := nextId + 1;
    }

    method ExecuteDeposit(destination: AccountId, amount: Cents, now: Time)
      returns (outcome: Outcome, ghost locked: seq<AccountId>)
      modifies this
      ensures Step(outcome, State(), locked) == Deposit(old(State()), destination, amount, now)
    {
      var accountRs := SelectForUpdate(balances, destination);
      locked := [destination];
      if !AccountExists(accountRs) {
        outcome := AccountDoesntExist;
      } else {
        IncreaseBalance(destination, amount);
        InsertTransaction(None, destination, DEPOSIT, amount, now);
        outcome := Ok;
      }
    }

    method ExecuteWithdraw(destination: AccountId, amount: Cents, now: Time)
      returns (outcome: Outcome, ghost locked: seq<AccountId>)
      modifies this
      ensures Step(outcome, State(), locked) == Withdraw(old(State()), destination, amount, now)
    {
      var accountRs := SelectForUpdate(balances, destination);
      locked := [destination];
      if !AccountExists(accountRs) {
        outcome := AccountDoesntExist;
      } else if !SufficientFunds(accountRs, amount) {
        outcome := InsufficientFunds;
      } else {
        DecreaseBalance(destination, amount);
        InsertTransaction(None, destination, WITHDRAW, amount, now);
        outcome := Ok;
      }
    }

    /** `updateBalances`: debit the source, credit the destination, log the
        TRANSFER, all in the transfer's unit of work. */
    method UpdateBalances(source: AccountId, destination: AccountId, amount: Cents, now: Time)
      returns (outcome: Outcome)
      requires source in balances && destination in balances
      modifies this
      ensures outcome == Ok
      ensures State() == Append(old(State()), Move(old(balances), source, destination, amount),
                                Some(source), destination, amount, TRANSFER, now)
    {
      DecreaseBalance(source, amount);
      IncreaseBalance(destination, amount);
      InsertTransaction(Some(source), destination, TRANSFER, amount, now);
      outcome := Ok;
    }

    /** Locks the lower id, then the higher one, checking each as it is locked. */
    method ExecuteTransfer(source: AccountId, destination: AccountId, amount: Cents, now: Time)
      returns (outcome: Outcome, ghost locked: seq<AccountId>)
      modifies this
      ensures Step(outcome, State(), locked) == Transfer(old(State()), source, destination, amount, now)
    {
      var firstAccountIdToLock := Min(source, destination);
      var secondAccountIdToLock := Max(source, destination);
      var firstAccountRs := SelectForUpdate(balances, firstAccountIdToLock);
      locked := [firstAccountIdToLock];
      if !AccountExists(firstAccountRs) {
        outcome := AccountDoesntExist;
        TransferFirstLockFails(State(), source, destination, amount, now);
        return;
      }
      var secondAccountRs := SelectForUpdate(balances, secondAccountIdToLock);
      locked := [firstAccountIdToLock, secondAccountIdToLock];
      if !AccountExists(secondAccountRs) {
        outcome := AccountDoesntExist;
        TransferSecondLockFails(State(), source, destination, amount, now);
        return;
      }
      assert source in balances && destination in balances;
      SufficientFundsReadsSource(balances, source, destination, amount);
      if !SufficientFundsOfSource(firstAccountRs, secondAccountRs, source, amount) {
        outcome := InsufficientFunds;
        TransferFundsCheckFails(State(), source, destination, amount, now);
      } else {
        TransferCommits(State(), source, destination, amount, now);
        outcome := UpdateBalances(source, destination, amount, now);
      }
    }

    /** `handleDeposit`, `handleWithdraw`, `handleTransfer`: run the operation
        and turn its code into the reply. */
    method HandleDeposit(destination: AccountId, amount: Cents, now: Time) returns (reply: Reply)
      modifies this
      ensures var r := Deposit(old(State()), destination, amount, now);
              State() == r.after && reply == HandleTransactionResult(Completed(r.outcome.Code()))
    {
      var outcome, _ := ExecuteDeposit(destination, amount, now);
      reply := HandleTransactionResult(Completed(outcome.Code()));
    }

    method HandleWithdraw(destination: AccountId, amount: Cents, now: Time) returns (reply: Reply)
      modifies this
      ensures var r := Withdraw(old(State()), destination, amount, now);
              State() == r.after && reply == HandleTransactionResult(Completed(r.outcome.Code()))
    {
      var outcome, _ := ExecuteWithdraw(destination, amount, now);
      reply := HandleTransactionResult(Completed(outcome.Code()));
    }

    method HandleTransfer(source: AccountId, destination: AccountId, amount: Cents, now: Time) returns (reply: Reply)
      modifies this
      ensures var r := Transfer(old(State()), source, destination, amount, now);
              State() == r.after && reply == HandleTransactionResult(Completed(r.outcome.Code()))
    {
      var outcome, _ := ExecuteTransfer(source, destination, amount, now);
      reply := HandleTransactionResult(Completed(outcome.Code()));
    }

    /** `listTransactions`: both directional reads in one unit of work, then
        `getTransactions` on the two result sets. */
    method ListTransactions(req: FetchTransactionsRequest) returns (transactions: seq<Txn>)
      ensures transactions == History.ListTransactions(log, req)
      ensures History.SortedByTime(transactions)
      ensures forall x :: x in transactions <==>
                && x in log
                && (x.source == Some(req.accountId) || x.destination == req.accountId)
                && History.IsTransactionInRange(req, x)
    {
      var outgoing := History.BySource(log, req.accountId);
      var incoming := History.ByDestination(log, req.accountId);
      transactions := History.GetTransactions(req, outgoing, incoming);
      forall x
        ensures x in transactions <==>
                  && x in log
                  && (x.source == Some(req.accountId) || x.destination == req.accountId)
                  && History.IsTransactionInRange(req, x)
      {
        History.ListTransactionsMembership(log, req, x);
      }
    }
  }
}
