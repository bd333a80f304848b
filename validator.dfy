/** The accept/reject rule applied to a create-transaction request before it
    reaches the ledger engine. The type name may be absent; the amount and the
    destination are taken as present numbers. */
module CreateTransactionValidator {
  import opened Domain
  import opened ErrorCodesTranslator

  /** The fields of a create-transaction request body. */
  datatype CreateTransactionRequest = CreateTransactionRequest(
    transactionType: Option<string>,
    amount: Cents,
    sourceAccountId: Option<AccountId>,
    destinationAccountId: AccountId)

  datatype Verdict = Accepted | Rejected(message: string)

  /** Whether `name` is the name of one of the enum's constants. */
  function IsTransactionTypeValid(name: string): (valid: bool)
    ensures valid <==> exists t: TransactionType :: t.Name() == name
  {
    name in {DEPOSIT.Name(), WITHDRAW.Name(), TRANSFER.Name()}
  }

  /** The constant a valid name denotes (what `mapTo` produces). */
  function ParseTransactionType(name: string): (t: TransactionType)
    requires IsTransactionTypeValid(name)
    ensures t.Name() == name
  {
    if name == DEPOSIT.Name() then DEPOSIT
    else if name == WITHDRAW.Name() then WITHDRAW
    else TRANSFER
  }

  /** The three guards in their fixed order: type, then amount, then the
      source id of a transfer. The first that fails decides the message. */
  function Validate(req: CreateTransactionRequest): (v: Verdict)
    ensures v.Accepted? <==>
              && req.transactionType.Some?
              && IsTransactionTypeValid(req.transactionType.value)
              && req.amount > 0
              && (req.transactionType.value != TRANSFER.Name() || req.sourceAccountId.Some?)
    ensures (req.transactionType.None? || !IsTransactionTypeValid(req.transactionType.value))
              ==> v == Rejected(INVALID_TRANSACTION_TYPE_MESSAGE)
    ensures v == Rejected(INVALID_TRANSACTION_AMOUNT_MESSAGE) <==>
              req.transactionType.Some? && IsTransactionTypeValid(req.transactionType.value) && req.amount <= 0
    ensures v == Rejected(NOT_NULLABLE_ACCOUNT_ID_MESSAGE) <==>
              && req.transactionType == Some(TRANSFER.Name())
              && req.amount > 0
              && req.sourceAccountId.None?
  {
    if req.transactionType.None? || !IsTransactionTypeValid(req.transactionType.value) then
      Rejected(INVALID_TRANSACTION_TYPE_MESSAGE)
    else if req.amount <= 0 then
      Rejected(INVALID_TRANSACTION_AMOUNT_MESSAGE)
    else if ParseTransactionType(req.transactionType.value) == TRANSFER && req.sourceAccountId.None? then
      Rejected(NOT_NULLABLE_ACCOUNT_ID_MESSAGE)
    else
      Accepted
  }

  /** The verdict depends on whether a source id is present, never on which
      accounts the ids name nor on whether source and destination coincide. */
  lemma ValidateIgnoresAccountIds(req: CreateTransactionRequest, source: Option<AccountId>, destination: AccountId)
    requires source.Some? <==> req.sourceAccountId.Some?
    ensures Validate(req.(sourceAccountId := source, destinationAccountId := destination)) == Validate(req)
  {
  }

  /** A well-formed transfer from an account to itself passes validation. */
  lemma SelfTransferAccepted(account: AccountId, amount: Cents)
    requires amount > 0
    ensures Validate(CreateTransactionRequest(Some(TRANSFER.Name()), amount, Some(account), account)) == Accepted
  {
  }
}
