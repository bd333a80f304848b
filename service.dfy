/** The path of a create-transaction request through the system: the validator
    first, then the engine operation its type selects, then the HTTP status and
    text for a failure. Used to state what holds of every sequence of requests. */
module LedgerService {
  import opened Domain
  import opened ErrorCodesTranslator
  import opened CreateTransactionValidator
  import opened Ledger
  import History

  /** The engine operation an accepted request reaches, chosen by its type. A
      deposit or withdraw ignores any source id the request carries. */
  function Execute(s: LedgerState, req: CreateTransactionRequest, now: Time): (r: Step)
    requires Validate(req) == Accepted
    ensures r.outcome == AccountDoesntExist <==>
              || req.destinationAccountId !in s.balances
              || (req.transactionType == Some(TRANSFER.Name()) && req.sourceAccountId.value !in s.balances)
    ensures r.outcome != Ok ==> r.after == s
    ensures req.transactionType == Some(DEPOSIT.Name()) ==>
              r == Deposit(s, req.destinationAccountId, req.amount, now)
    ensures req.transactionType == Some(WITHDRAW.Name()) ==>
              r == Withdraw(s, req.destinationAccountId, req.amount, now)
    ensures req.transactionType == Some(TRANSFER.Name()) ==>
              r == Transfer(s, req.sourceAccountId.value, req.destinationAccountId, req.amount, now)
  {
    match ParseTransactionType(req.transactionType.value)
    case DEPOSIT => Deposit(s, req.destinationAccountId, req.amount, now)
    case WITHDRAW => Withdraw(s, req.destinationAccountId, req.amount, now)
    case TRANSFER => Transfer(s, req.sourceAccountId.value, req.destinationAccountId, req.amount, now)
  }

  /** A request body and the time the store would stamp on its record. */
  datatype Submission = Submission(request: CreateTransactionRequest, at: Time)

  /** The ledger after the submissions have been handled one after another;
      a request the validator rejects never reaches the engine. */
  function Run(s: LedgerState, submissions: seq<Submission>): LedgerState
    decreases |submissions|
  {
    if submissions == [] then s
    else
      var next := if Validate(submissions[0].request) == Accepted
                  then Execute(s, submissions[0].request, submissions[0].at).after
                  else s;
      Run(next, submissions[1..])
  }

  /** One accepted request keeps both invariants: the amount is positive
      because the validator made sure of it. */
  lemma ExecuteKeepsInvariants(s: LedgerState, req: CreateTransactionRequest, now: Time)
    requires Validate(req) == Accepted
    requires Valid(s) && NonNegative(s.balances)
    ensures var after := Execute(s, req, now).after;
            Valid(after) && NonNegative(after.balances) && after.balances.Keys == s.balances.Keys
  {
    match ParseTransactionType(req.transactionType.value)
    case DEPOSIT =>
      DepositValid(s, req.destinationAccountId, req.amount, now);
      DepositNonNegative(s, req.destinationAccountId, req.amount, now);
    case WITHDRAW =>
      WithdrawValid(s, req.destinationAccountId, req.amount, now);
      WithdrawNonNegative(s, req.destinationAccountId, req.amount, now);
    case TRANSFER =>
      TransferValid(s, req.sourceAccountId.value, req.destinationAccountId, req.amount, now);
      TransferNonNegative(s, req.sourceAccountId.value, req.destinationAccountId, req.amount, now);
  }

  /** Whatever requests arrive, in whatever order, the log stays valid, no
      account appears or disappears, and no balance goes below zero. */
  lemma {:induction false} RunKeepsInvariants(s: LedgerState, submissions: seq<Submission>)
    requires Valid(s) && NonNegative(s.balances)
    ensures var after := Run(s, submissions);
            Valid(after) && NonNegative(after.balances) && after.balances.Keys == s.balances.Keys
    decreases |submissions|
  {
    if submissions != [] {
      var next := if Validate(submissions[0].request) == Accepted
                  then Execute(s, submissions[0].request, submissions[0].at).after
                  else s;
      if Validate(submissions[0].request) == Accepted {
        ExecuteKeepsInvariants(s, submissions[0].request, submissions[0].at);
      }
      RunKeepsInvariants(next, submissions[1..]);
    }
  }

  /** Starting from freshly opened accounts (all at 0), no sequence of
      requests ever makes a balance negative. */
  lemma OpenedLedgerNeverNegative(accounts: set<AccountId>, submissions: seq<Submission>)
    ensures NonNegative(Run(Opened(accounts), submissions).balances)
  {
    RunKeepsInvariants(Opened(accounts), submissions);
  }

  /** The validator does not look up accounts: a well-formed request naming a
      missing account is accepted, then the engine refuses it without writing
      anything, and the client gets 400 with the "doesn't exist" message. */
  lemma MissingAccountRejectedByEngine(s: LedgerState, req: CreateTransactionRequest, now: Time)
    requires Validate(req) == Accepted
    requires req.destinationAccountId !in s.balances
             || (req.transactionType == Some(TRANSFER.Name()) && req.sourceAccountId.value !in s.balances)
    ensures Execute(s, req, now).after == s
    ensures TranslateErrorCodeToReply(Execute(s, req, now).outcome.Code()) == HttpReply(BAD_REQUEST, ACCOUNT_DOESNT_EXIST_MESSAGE)
  {
  }

  /** Account 0 holds 0 and account 1 holds 100. Depositing 50 into account 0
      and then withdrawing 70 from it leaves one record in its history: the
      withdraw is refused for insufficient funds. */
  lemma DepositThenOverdrawScenario(t1: Time, t2: Time)
    ensures var s0 := LedgerState(map[0 := 0, 1 := 100], [], 0);
            var d := Deposit(s0, 0, 50, t1);
            var w := Withdraw(d.after, 0, 70, t2);
            && d.outcome == Ok && w.outcome == InsufficientFunds
            && |History.ListTransactions(w.after.log, FetchTransactionsRequest(0, None, None))| == 1
  {
    var s0 := LedgerState(map[0 := 0, 1 := 100], [], 0);
    var d := Deposit(s0, 0, 50, t1);
    var record := Txn(0, None, 0, 50, DEPOSIT, t1);
    assert d.after.log == [record];
    History.ListTransactionsCount(d.after.log, FetchTransactionsRequest(0, None, None), record);
  }
}
