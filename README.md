# vertxtrial ledger engine in Dafny

A model of the ledger core of `vertxtrial`, a small Vert.x banking backend:

- **the transaction engine** (`TransactionsRepository`): a table of account balances and an append-only log of transaction records, changed by deposit, withdraw and transfer;
- **the history query**: the records that touch an account within an inclusive time window, ordered by execution time;
- **the request validator** (`CreateTransactionValidator`);
- **the error-code translator** (`ErrorCodesTranslator`).

Files:

- `domain.dfy` (module `Domain`): ids, amounts in cents, times, the transaction type enum, the transaction record, the history request, an account row.
- `error_codes.dfy` (module `ErrorCodesTranslator`): the result codes, the message and status tables, both `translateErrorCode` overloads.
- `validator.dfy` (module `CreateTransactionValidator`): the three guards in their fixed order.
- `ledger.dfy` (module `Ledger`): the ledger as a value and the three operations as functions, stated without reference to lock order. The lemmas here cover lock order, money conservation, the structural and non-negativity invariants, and self-transfers.
- `history.dfy` (module `History`): `isTransactionInRange`, the two directional selects, the merge, the filter and a stable sort. The lemmas prove the result is sorted, is a permutation of the filtered merge, and has exact multiplicities.
- `repository.dfy` (module `Repository`): class `TransactionsRepository`, whose fields `balances`, `log` and `nextId` are the two tables and the identity counter. Its methods follow the source step by step: lock a row, check it, update balances, insert the record. Each one is proved equal to the matching `Ledger` function. The module also has `handleTransactionResult`.
- `service.dfy` (module `LedgerService`): routes an accepted request to its operation. It proves that no sequence of requests, starting from freshly opened accounts, makes a balance negative.

Amounts are whole cents. The store keeps them as `DECIMAL(20,2)` and compares them exactly, so no floating point is involved. The execution time that the store stamps on each insert (`DEFAULT NOW()`) is a parameter `now`. Each operation's row locks are returned as a ghost sequence `locked`, so the lock order can be stated. A business failure (missing account, insufficient funds) is an ordinary result of the chain, emitted before any write, so the ledger is left exactly as it was; the repository methods return that failure code before any write. On `Ok` every write of the operation is applied.

`ErrorCodes.java` is not part of this model. The engine fixes only `OK == 0`: it replies with success exactly on code 0. The model gives the three failure codes the distinct non-zero values 1, 2 and 3. No property depends on which values they are.

Two behaviours of the code are easy to miss, and the model keeps both as written:

- **Self-transfers.** Transfers are meant to move money between two accounts, but neither the validator nor the engine rejects a transfer from an account to itself. In that case the same row is locked twice, the balance does not change, and one TRANSFER record is logged. That record is in both directional result sets, so the account's history shows it twice. `Ledger.SelfTransfer`, `Ledger.SelfTransferShownTwice` and `CreateTransactionValidator.SelfTransferAccepted` state this behaviour. The model keeps it as written.
- **Unknown codes.** The `String` overload maps an unknown code to the generic technical-error message. The response-writing overload instead answers 500 with the text "Unknown error".

## Model

| member | source | states |
|---|---|---|
| `ErrorCodesTranslator.Outcome.Code` | src/main/java/com/gjeziorski/vertxtrial/repository/TransactionsRepository.java:247 | An outcome's code is 0 exactly when it is `Ok`; every failure code is one of the three mapped codes |
| `ErrorCodesTranslator.TranslateErrorCode` | src/main/java/com/gjeziorski/vertxtrial/common/ErrorCodesTranslator.java:37-40 | INSUFFICIENT_FUNDS, ACCOUNT_DOESNT_EXIST and TECHNICAL_ERROR get their own messages; any other code gets TECHNICAL_ERROR_MESSAGE; total, never fails |
| `ErrorCodesTranslator.TranslateErrorCodeToReply` | src/main/java/com/gjeziorski/vertxtrial/common/ErrorCodesTranslator.java:21-32 | The status is always 400 or 500: 400 for insufficient funds and missing account, 500 for technical error. An unmapped code gives (500, "Unknown error"); a mapped code gives the same message as the `String` overload |
| `ErrorCodesTranslator.OverloadsAgreeIffMapped` | src/main/java/com/gjeziorski/vertxtrial/common/ErrorCodesTranslator.java:25-39 | The two overloads give the same message if and only if the code is one of the three mapped codes |
| `ErrorCodesTranslator.OutcomeStatus` | src/main/java/com/gjeziorski/vertxtrial/common/ErrorCodesTranslator.java:21-27 | Every engine failure except a technical one is a 400; a technical one is a 500; the text is the translated message |
| `CreateTransactionValidator.IsTransactionTypeValid` | src/main/java/com/gjeziorski/vertxtrial/service/CreateTransactionValidator.java:40-43 | A name is valid if and only if it is the name of some `TransactionType` constant |
| `CreateTransactionValidator.ParseTransactionType` | src/main/java/com/gjeziorski/vertxtrial/service/CreateTransactionValidator.java:29 | A valid name maps to the constant that has that name |
| `CreateTransactionValidator.Validate` | src/main/java/com/gjeziorski/vertxtrial/service/CreateTransactionValidator.java:20-38 | Accepted if and only if the type is present and valid, amount > 0, and a TRANSFER has a source id. A missing or unknown type is rejected with the type message, even when the amount is also bad. The amount message is given exactly when the type is valid and amount <= 0. The null-source message is given exactly for a positive-amount TRANSFER with no source |
| `CreateTransactionValidator.ValidateIgnoresAccountIds` | src/main/java/com/gjeziorski/vertxtrial/service/CreateTransactionValidator.java:20-38 | The verdict does not depend on which accounts are named, only on whether a source id is present |
| `CreateTransactionValidator.SelfTransferAccepted` | src/main/java/com/gjeziorski/vertxtrial/service/CreateTransactionValidator.java:34-37 | A positive transfer whose source and destination are the same account passes validation |
| `Ledger.Opened` | src/main/java/com/gjeziorski/vertxtrial/repository/AccountsRepository.java:23 | Exactly the given accounts exist, each with balance 0; the log is empty and the next identity is 0; both invariants hold |
| `Ledger.LockOrder` | src/main/java/com/gjeziorski/vertxtrial/repository/TransactionsRepository.java:126-129 | The two ids to lock are ascending and are exactly {source, destination} as a multiset |
| `Ledger.Deposit` | src/main/java/com/gjeziorski/vertxtrial/repository/TransactionsRepository.java:219-241 | Locks only the destination. Fails with ACCOUNT_DOESNT_EXIST, changing nothing, exactly when the destination is missing. Otherwise it credits the destination, leaves every other balance unchanged, and appends exactly one record (next id, no source, destination, amount, DEPOSIT, now) |
| `Ledger.Withdraw` | src/main/java/com/gjeziorski/vertxtrial/repository/TransactionsRepository.java:154-179 | ACCOUNT_DOESNT_EXIST exactly when the account is missing. INSUFFICIENT_FUNDS exactly when it exists and its balance < amount. Either failure leaves the state unchanged. On success it debits the account, leaves the others unchanged, and appends one WITHDRAW record with no source |
| `Ledger.TransferLocks` | src/main/java/com/gjeziorski/vertxtrial/repository/TransactionsRepository.java:130-140 | A transfer locks min(source, destination), then max(source, destination) only if the first row exists |
| `Ledger.Move` | src/main/java/com/gjeziorski/vertxtrial/repository/TransactionsRepository.java:205-211 | Taking `amount` from the source and giving it to the destination keeps the set of accounts; for two distinct accounts the source drops and the destination rises by exactly `amount`; every other balance is unchanged |
| `Ledger.Transfer` | src/main/java/com/gjeziorski/vertxtrial/repository/TransactionsRepository.java:123-152 | ACCOUNT_DOESNT_EXIST exactly when either account is missing. INSUFFICIENT_FUNDS exactly when both exist and the source's balance < amount. Failures change nothing. On success (distinct ids) it debits the source, credits the destination, leaves the rest unchanged, and appends one TRANSFER record carrying both ids |
| `Ledger.TransferLockOrderSymmetric` | src/main/java/com/gjeziorski/vertxtrial/repository/TransactionsRepository.java:126-137 | A→B and B→A take the same locks in the same order, whatever the amounts; locks are taken in ascending id order |
| `Ledger.TransferFirstLockFails` | src/main/java/com/gjeziorski/vertxtrial/repository/TransactionsRepository.java:130-134 | If the lower id has no row, the transfer fails with ACCOUNT_DOESNT_EXIST after that one lock and changes nothing |
| `Ledger.TransferSecondLockFails` | src/main/java/com/gjeziorski/vertxtrial/repository/TransactionsRepository.java:135-139 | If the lower id exists and the higher has no row, the transfer fails with ACCOUNT_DOESNT_EXIST after both locks and changes nothing |
| `Ledger.TransferFundsCheckFails` | src/main/java/com/gjeziorski/vertxtrial/repository/TransactionsRepository.java:140-141 | If both exist and the source holds less than the amount, the transfer fails with INSUFFICIENT_FUNDS after both locks and changes nothing |
| `Ledger.TransferCommits` | src/main/java/com/gjeziorski/vertxtrial/repository/TransactionsRepository.java:142-143 | If both exist and the source covers the amount, the transfer succeeds after both locks: balances moved by `Move`, one TRANSFER record appended |
| `Ledger.DebitTotal` | src/main/java/com/gjeziorski/vertxtrial/repository/TransactionsRepository.java:38 | Debiting an existing account lowers the sum of all balances by exactly the amount |
| `Ledger.CreditTotal` | src/main/java/com/gjeziorski/vertxtrial/repository/TransactionsRepository.java:37 | Crediting an existing account raises the sum of all balances by exactly the amount |
| `Ledger.MoveKeepsTotal` | src/main/java/com/gjeziorski/vertxtrial/repository/TransactionsRepository.java:205-211 | Moving an amount between two existing accounts, or from an account to itself, leaves the sum of all balances unchanged |
| `Ledger.DepositTotal` | src/main/java/com/gjeziorski/vertxtrial/repository/TransactionsRepository.java:228-236 | A successful deposit raises the sum of all balances by exactly the amount; a failed one leaves it unchanged |
| `Ledger.WithdrawTotal` | src/main/java/com/gjeziorski/vertxtrial/repository/TransactionsRepository.java:162-173 | A successful withdraw lowers the sum of all balances by exactly the amount; a failed one leaves it unchanged |
| `Ledger.TransferConservesTotal` | src/main/java/com/gjeziorski/vertxtrial/repository/TransactionsRepository.java:205-217 | A transfer never changes the sum of all balances |
| `Ledger.DepositValid` | src/main/java/com/gjeziorski/vertxtrial/repository/TransactionsRepository.java:228-236 | A deposit keeps the log's ids increasing and below the next id, and keeps every record naming existing accounts |
| `Ledger.WithdrawValid` | src/main/java/com/gjeziorski/vertxtrial/repository/TransactionsRepository.java:165-173 | A withdraw keeps the same structural invariant |
| `Ledger.TransferValid` | src/main/java/com/gjeziorski/vertxtrial/repository/TransactionsRepository.java:205-217 | A transfer keeps the same structural invariant |
| `Ledger.DepositNonNegative` | src/main/java/com/gjeziorski/vertxtrial/repository/TransactionsRepository.java:228-231 | With a positive amount, a deposit keeps every balance >= 0 |
| `Ledger.WithdrawNonNegative` | src/main/java/com/gjeziorski/vertxtrial/repository/TransactionsRepository.java:162-168 | A withdraw keeps every balance >= 0, because it debits only when the balance covers the amount |
| `Ledger.TransferNonNegative` | src/main/java/com/gjeziorski/vertxtrial/repository/TransactionsRepository.java:141-144 | With a positive amount, a transfer keeps every balance >= 0 |
| `Ledger.SelfTransfer` | src/main/java/com/gjeziorski/vertxtrial/repository/TransactionsRepository.java:126-144 | A covered transfer from an account to itself succeeds: the same row is locked twice, all balances stay as they were, and one TRANSFER record with source = destination is appended |
| `Ledger.SelfTransferShownTwice` | src/main/java/com/gjeziorski/vertxtrial/repository/TransactionsRepository.java:89-93 | In a valid ledger, that self-transfer record appears exactly twice in the account's history |
| `History.IsTransactionInRange` | src/main/java/com/gjeziorski/vertxtrial/repository/TransactionsRepository.java:100-113 | A record is in range if and only if (no `from` or from <= time) and (no `to` or time <= to); both bounds are inclusive |
| `History.Insert` | src/main/java/com/gjeziorski/vertxtrial/repository/TransactionsRepository.java:96-97 | Inserting into a time-ordered sequence gives a time-ordered sequence with exactly one more element |
| `History.SortByTime` | src/main/java/com/gjeziorski/vertxtrial/repository/TransactionsRepository.java:96-97 | The result is ordered by execution time and is a permutation of the input |
| `History.ListTransactionsSortedPermutation` | src/main/java/com/gjeziorski/vertxtrial/repository/TransactionsRepository.java:89-98 | The history is time-ordered and is a permutation of the in-range part of the outgoing records followed by the incoming ones |
| `History.ListTransactionsCount` | src/main/java/com/gjeziorski/vertxtrial/repository/TransactionsRepository.java:89-98 | A record's multiplicity in the history is its multiplicity in the log times the number of sides the account is on, if it is in range, and 0 otherwise |
| `History.ListTransactionsMembership` | src/main/java/com/gjeziorski/vertxtrial/repository/TransactionsRepository.java:89-113 | A record is returned if and only if it is in the log, names the account as source or destination, and is in range. It is returned unchanged |
| `History.ListTransactionsEmptyWindow` | src/main/java/com/gjeziorski/vertxtrial/repository/TransactionsRepository.java:100-113 | A `from` after every record's time, or a `to` before every record's time, gives an empty history |
| `Repository.SelectForUpdate` | src/main/java/com/gjeziorski/vertxtrial/repository/TransactionsRepository.java:35 | The lock query returns at most one row; it returns one exactly when the account exists, with that account's id and balance |
| `Repository.SufficientFundsReadsSource` | src/main/java/com/gjeziorski/vertxtrial/repository/TransactionsRepository.java:191-203 | Whichever row was locked first, `getResultSetByAccountId` picks the source's row, so the transfer's funds check holds if and only if the source's balance >= amount |
| `Repository.HandleTransactionResult` | src/main/java/com/gjeziorski/vertxtrial/repository/TransactionsRepository.java:244-257 | The reply is a success (empty body) exactly on code 0. Any other code fails with that code and `translateErrorCode(code)`. An exception fails with TECHNICAL_ERROR and "Technical error", which is that code's translation |
| `Repository.HandleOutcome` | src/main/java/com/gjeziorski/vertxtrial/repository/TransactionsRepository.java:244-251 | An engine outcome gives a success reply exactly when it is `Ok`; insufficient funds and a missing account fail with their own codes and messages |
| `Repository.TransactionsRepository.constructor` | src/main/java/com/gjeziorski/vertxtrial/repository/AccountsRepository.java:23 | The store starts with the given accounts at balance 0 and an empty log |
| `Repository.TransactionsRepository.IncreaseBalance` | src/main/java/com/gjeziorski/vertxtrial/repository/TransactionsRepository.java:37 | Adds the amount to the row with that id; an id with no row changes nothing; no other field changes |
| `Repository.TransactionsRepository.DecreaseBalance` | src/main/java/com/gjeziorski/vertxtrial/repository/TransactionsRepository.java:38 | Subtracts the amount from the row with that id; an id with no row changes nothing |
| `Repository.TransactionsRepository.InsertTransaction` | src/main/java/com/gjeziorski/vertxtrial/repository/TransactionsRepository.java:40-41 | Appends one record stamped with the next identity and `now`, and advances the identity |
| `Repository.TransactionsRepository.ExecuteDeposit` | src/main/java/com/gjeziorski/vertxtrial/repository/TransactionsRepository.java:219-241 | The lock, check, update and insert sequence produces exactly the outcome, new state and locks of `Ledger.Deposit` |
| `Repository.TransactionsRepository.ExecuteWithdraw` | src/main/java/com/gjeziorski/vertxtrial/repository/TransactionsRepository.java:154-179 | The lock, check, funds check, update and insert sequence produces exactly `Ledger.Withdraw` |
| `Repository.TransactionsRepository.UpdateBalances` | src/main/java/com/gjeziorski/vertxtrial/repository/TransactionsRepository.java:205-217 | Returns OK; the new state is the old one with the balances moved by `Ledger.Move` (source debited, then destination credited) and one TRANSFER record appended under the next identity |
| `Repository.TransactionsRepository.ExecuteTransfer` | src/main/java/com/gjeziorski/vertxtrial/repository/TransactionsRepository.java:123-152 | Checking each row as it is locked, in ascending id order, and checking funds on the source's row, gives exactly the outcome and state of the order-free `Ledger.Transfer`, with the locks `Ledger.TransferLocks` names |
| `Repository.TransactionsRepository.HandleDeposit` | src/main/java/com/gjeziorski/vertxtrial/repository/TransactionsRepository.java:51-53 | The new state is the deposit's, and the reply is `handleTransactionResult` of its code |
| `Repository.TransactionsRepository.HandleWithdraw` | src/main/java/com/gjeziorski/vertxtrial/repository/TransactionsRepository.java:55-57 | The same for a withdraw |
| `Repository.TransactionsRepository.HandleTransfer` | src/main/java/com/gjeziorski/vertxtrial/repository/TransactionsRepository.java:59-61 | The same for a transfer |
| `Repository.TransactionsRepository.ListTransactions` | src/main/java/com/gjeziorski/vertxtrial/repository/TransactionsRepository.java:66-98 | The reply is time-ordered and holds exactly the logged records that name the account on either side and are in range |
| `LedgerService.Execute` | src/main/java/com/gjeziorski/vertxtrial/service/TransactionsService.java:28-53 | An accepted request goes to the operation its type names: a DEPOSIT gives exactly `Ledger.Deposit`'s step, a WITHDRAW `Ledger.Withdraw`'s and a TRANSFER `Ledger.Transfer`'s, with the request's destination, amount and (for a transfer) source. It fails with ACCOUNT_DOESNT_EXIST exactly when the destination, or a transfer's source, is missing. Any failure changes nothing |
| `LedgerService.ExecuteKeepsInvariants` | src/main/java/com/gjeziorski/vertxtrial/repository/TransactionsRepository.java:154-241 | An accepted request keeps the structural invariant and non-negative balances, and adds or removes no account |
| `LedgerService.RunKeepsInvariants` | src/main/java/com/gjeziorski/vertxtrial/repository/TransactionsRepository.java:154-241 | Any sequence of requests, valid or not, keeps both invariants and the set of accounts |
| `LedgerService.OpenedLedgerNeverNegative` | src/main/java/com/gjeziorski/vertxtrial/repository/AccountsRepository.java:23 | Starting from accounts opened at 0, no balance ever becomes negative |
| `LedgerService.MissingAccountRejectedByEngine` | src/test/java/com/gjeziorski/vertxtrial/TransactionIntegrationTest.java:136-155 | A valid request naming a missing account passes the validator, is refused by the engine without any write, and is answered 400 with the "doesn't exist" message |
| `LedgerService.DepositThenOverdrawScenario` | src/test/java/com/gjeziorski/vertxtrial/verticles/RepositoryVerticleTest.java:112-135 | Deposit 50, then withdraw 70 from the same account: the withdraw fails with INSUFFICIENT_FUNDS and the history holds one record |

The row helpers `AccountExists`, `SufficientFunds`, `ResultSetByAccountId` and `SufficientFundsOfSource` model `accountExists`, both `sufficientFunds` overloads and `getResultSetByAccountId` (TransactionsRepository.java:181-203). The selects `BySource` and `ByDestination` model the two queries (lines 32-33), and `GetTransactions` models `getTransactions` (lines 89-98). Their properties are stated by `SufficientFundsReadsSource` and the `ListTransactions*` lemmas.

## Left out

- JSON (de)serialisation (`deserializeTransaction`, `deserializeFetchTransactionsRequest`, `mapTransactions`, `writeValueAsString`) and the shared `ObjectMapper` singleton: requests arrive as typed values and records are returned as values.
- The event bus, HTTP routing, the JSON schema and request parsing (`HttpVerticle`, `AccountsService`, `TransactionsService`). The model's history query takes `from`/`to` as given. The parser's habit of writing the `to` parameter into `from` is not carried over.
- Real row locking, connection pooling, the RxJava chains and concurrent interleavings: locks are only the ghost sequence each operation acquires. Deadlock freedom itself is a concurrency property and is not stated. Only the fact it rests on is stated: every transfer locks in ascending id order.
- Store-level failures (lost connection, constraint violation, an overflow of `DECIMAL(20,2)`): the engine functions never produce TECHNICAL_ERROR. That path exists only as the `Raised` completion of `HandleTransactionResult`. The history query's own failure reply (TECHNICAL_ERROR, "Failed to fetch transactions") is not modelled.
- Account creation and listing (`AccountsRepository`): only the fact that new accounts start at balance 0 is used, as the initial state. Names and surnames are opaque and omitted.
- Amounts with more than two decimals: all amounts are whole cents, so the store's rounding to `DECIMAL(20,2)` does not arise. Ids are unbounded integers, so the 32-bit `INT IDENTITY` is not modelled.
- The row order of the two directional selects is not fixed by the store: the model takes log order. This affects only the relative order of records that have equal execution times.
- History.SortByTime: the contract states sorted and a permutation, not that records with equal execution times keep their merge order (Java's sort is stable, and so is the insertion sort in the model, but stability is not proved).
- The stored `TRANSACTION_TYPE`: the repository writes the request's own `transaction_type` into the record, while `Ledger.Deposit`, `Ledger.Withdraw` and `Ledger.Transfer` write DEPOSIT, WITHDRAW and TRANSFER. The two agree because requests reach each operation by their type (`LedgerService.Execute`); a message sent to an operation under another type is not modelled.
- A request whose `amount` is absent or not a number: the validator reads it with `mapTo`/`getAmount()` and fails with an exception rather than a rejection message. `CreateTransactionRequest.amount` is always a number, so that case is not modelled.
- The engine does not re-check that the amount is positive. `DepositNonNegative` and `TransferNonNegative` therefore assume amount > 0, which the validator guarantees (`LedgerService.ExecuteKeepsInvariants`).
