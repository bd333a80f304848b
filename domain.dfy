/** The value types shared by the ledger: account ids, amounts, execution times,
    the three transaction types and the immutable transaction record. */
module Domain {

  datatype Option<+T> = None | Some(value: T)

  /** Account ids (the ACCOUNT table's INT IDENTITY column). */
  type AccountId = int

  /** Transaction ids (the TRANSACTION table's INT IDENTITY column). */
  type TxnId = int

  /** Amounts and balances in hundredths of the currency unit: the store keeps
      them as DECIMAL(20,2) and compares them exactly, so whole cents lose nothing. */
  type Cents = int

  /** A point in time (the store's TIMESTAMP / java.time.Instant), as a number. */
  type Time = int

  datatype TransactionType = DEPOSIT | WITHDRAW | TRANSFER
  {
    /** The enum constant's name, as `toString` spells it. */
    function Name(): string
    {
      match this
      case DEPOSIT => "DEPOSIT"
      case WITHDRAW => "WITHDRAW"
      case TRANSFER => "TRANSFER"
    }
  }

  /** One row of the TRANSACTION table. `source` is absent for deposits and
      withdrawals; `executionTime` is stamped by the store on insert. */
  datatype Txn = Txn(
    id: TxnId,
    source: Option<AccountId>,
    destination: AccountId,
    amount: Cents,
    kind: TransactionType,
    executionTime: Time)

  /** A history query: the account and the optional, inclusive time bounds. */
  datatype FetchTransactionsRequest = FetchTransactionsRequest(
    accountId: AccountId,
    from: Option<Time>,
    to: Option<Time>)

  /** One row of the `SELECT ID, BALANCE ... FOR UPDATE` result set. */
  datatype AccountRow = AccountRow(id: AccountId, balance: Cents)
}
