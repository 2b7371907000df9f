# NexoBank: the money-moving core, modelled and proved

NexoBank is a banking API over PostgreSQL. This project models the parts whose correctness depends on
several pieces of code together, and proves what they promise.

**Money moves concurrently.** Transfers, deposits, status changes and account openings run as interleaved
database transactions over shared accounts and an append-only ledger. The model has two layers.

- `AtomicBank` says what each request does when it runs alone, as one indivisible action on the committed
  tables: `Apply(bank, request)` gives the new tables and the response, error for error.
- `Protocol` is the interleaved system: any number of transactions, each with its identity map, its
  uncommitted rows and its phase, stepping one SQL statement at a time over committed tables, row locks and
  reserved unique keys. Reads see committed rows; a granted row lock refreshes the cached copy; balances are
  written as absolute values; an insert of a key that another unfinished transaction has inserted waits, and
  fails if that transaction commits; anything that fails rolls back.

`ProtocolInvariant` shows that every step keeps the system in order and that every commit is exactly the
atomic action of its request. From that follow serializability of whole runs (`Serializability`), the books
(`Bookkeeping`, `Conservation`), freedom from deadlock and a bound on every schedule (`DeadlockFreedom`), that an
undisturbed request gives the atomic action's response and every serial history is some run's (`Promise`), and
which duplicates in flight are answered with the original pair (`Duplicates`). `TransactionService` models the
service code in its own form: `Database` and `Session` objects with `execute_transfer`, `deposit_funds` and
`create_account` as methods that change them statement by statement, with other requests moving at every `await`;
`Valid()` says that the objects' state is the state of a run of the protocol from the empty bank. `Answers` says in
plain terms, constants written out, what every request answers and does: which condition raises which error, which
transfers go through, which rows and entries are written; and that in any run no request is refused without a
reason in the tables. `Examples` holds concrete runs.

A transaction's outcome is the one at its commit or rollback. What the routers do afterwards, announcing a
committed transfer (`app/api/v1/routers/transfers.py:88-96`), is not part of the model: an exception there
reaches the client although the money has moved.

**Rounding.** `Money` models the decimals a deposit meets: the 28-digit context of Python's decimal module, half
to even, and the rounding of a `Numeric(18, 2)` column, half away from zero.

**Pages.** `Cursor` is the page cursor, from UUID text (section 4 of RFC 9562) through URL-safe base64 (section 5
of RFC 4648) and back. `Paging` has the page query built in stages, proved to slice the sorted history, and the
walk through all pages, over a ledger that stays or that grows meanwhile.

**Tokens.** `Tokens` is the state machine of refresh tokens and password-reset tokens with a clock and its audit
log; `AuthService` models the service code over it, with flushed state, commit and rollback.

**Totals.** `UserContext` is the per-currency totals loop, and what it shows of transfers.

## Where the code does less than its documentation says

- The README and the transfer schema allow idempotency keys of 64 characters. The companion row is keyed with
  three characters more, so in no run does a key of 62 to 64 characters commit
  (`Serializability.CommittedKeysAreShort`, and `Bookkeeping.LongKeysNeverCommit` for a lone transfer).
- The service treats a row under `k` without one under `k_in` as an interrupted write. Rows of a pair always
  become visible together, so that never happens; what does happen is that a client's own key ends in `_in`
  and names another transfer's credit (`Serializability.PartialTransferExactly`,
  `Bookkeeping.CompanionKeysCollide`, `Examples.CollisionExample`). Claims about pairs hold exactly when the
  row under the key is a debit, which it is for every key not ending in `_in`.
- "Duplicate requests return the original transaction" does not hold of every duplicate in flight. In any run in
  which the original commits, another transfer under its key, once finished and not cancelled, is answered with
  the pair if and only if its own lookup already saw a row under the key
  (`Duplicates.DuplicateAnsweredExactly`); so it always is when it looks after the original's commit
  (`Duplicates.RetryInFlightIsReplayed`). When both look first, the later one can pass every rule and still be
  refused on the unique key (`Duplicates.DuplicateLosesRace`, `Examples.RaceExample`). Money never moves twice
  (`Serializability.AtMostOneCommitPerKey`).
- A deposit's amount may have any number of decimals. The balance is the amount added and then rounded, the
  ledger row is the amount rounded. The two agree for up to twelve decimals; beyond that the balance can be one
  cent ahead (`Examples.DriftIsReached`, `Examples.DriftExample`), exactly when `Money.Drifts` says so
  (`Money.CreditedExactly`). So an account's balance equals its ledger rows if and only if none of its deposits
  drifted (`Bookkeeping.BalanceEqualsLedgerIff`).
- Corrections "by reversal transactions" are described, but no code makes them.

## Model

| member | source | states |
|---|---|---|
| Money.RoundTwice | app/services/account_service.py:154-163 | rounding to the decimal context first and to cents second differs from rounding to cents once, by one cent up, exactly on a half-open window of fractions under the half cent |
| Money.CreditedExactly | app/services/account_service.py:154-163 | old balance plus the separately rounded ledger amount is the new balance, except one cent more exactly when the amount drifts |
| Money.ShortAmountsNeverDrift | app/services/account_service.py:154-163 | amounts of at most twelve fractional digits keep balance and ledger in step, at any balance |
| Money.LongAmountsCanDrift | app/services/account_service.py:154-163 | a thirteen-digit amount that puts the balance a cent ahead of the ledger |
| Money.OverflowSurvivesRounding | app/models/account.py:55-59 | a sum outside the balance column is still outside it after both roundings, so no rounding hides an overflow |
| Money.DigitsRange | app/services/account_service.py:154-163 | the digit count the context rounds by: n lies between the powers of ten it names |
| Money.WholeAmountsAreExact | app/services/account_service.py:154-163 | a deposit of c * 10^e with e >= -2 is recorded as c * 10^(e+2) cents and credited as just that |
| Money.WholePesos | app/services/account_service.py:154-163 | n pesos are 100 * n cents, in the row and on the balance |
| Money.FractionsRoundToNearest | app/models/transaction.py:67 | an amount with fractions of a cent is recorded as the nearest cent, ties up |
| Money.DriftsMeans | app/services/account_service.py:154-163 | an amount drifts if and only if the sum has d > 28 digits and the fraction of a cent is under the half by at most half of 10^(d-28) of its units |
| Money.AcceptedAmountsAreExact | app/schemas/transaction.py:44-62 | an accepted transfer amount is a positive whole number of cents, unchanged by quantisation and by validating it again; amounts that are not whole cents are rejected |
| Money.ValidatesExactly | app/schemas/transaction.py:44-62 | an amount c * 10^e is accepted if and only if it is positive, has at most two decimals and c * 10^(e+2) has at most 28 digits, and then as that many cents; the error of each failing condition |
| Ledger.FindKey | app/repositories/transaction_repository.py:92-104 | the lookup finds a row with that key whenever there is one |
| Ledger.FindKeyKeeps | app/repositories/transaction_repository.py:92-104 | rows appended under new keys never hide or change what a key finds |
| Bookkeeping.ApplyKeepsBankOk | app/services/transaction_service.py:254-292 | every request keeps balances non-negative and inside the column, keys unique, and each debit with its mirrored credit under the companion key |
| Bookkeeping.ReplayIsGenuine | app/services/transaction_service.py:183-197 | what is found under a key is a mirrored pair exactly when the first row is a debit; always so for keys not ending in the suffix |
| Bookkeeping.KeyStored | app/services/transaction_service.py:272-292 | both rows of a committed transfer stay findable under its two keys, whatever is committed later |
| Bookkeeping.AtMostOneTransferPerKey | app/models/transaction.py:72-76 | no serial history commits two transfers under one key |
| Bookkeeping.RetryIsReplayed | app/services/transaction_service.py:183-192 | a lone retry of a committed transfer returns the original pair and changes nothing, at any later time; in company see `Duplicates.RetryInFlightIsReplayed` |
| Bookkeeping.LongKeysNeverCommit | app/services/transaction_service.py:283-292 | a transfer that passes every rule with both keys unused commits if and only if its key has at most 61 characters and its description fits |
| Bookkeeping.CompanionKeysCollide | app/services/transaction_service.py:186-197 | a key that is another transfer's companion key gets the partial-transfer error |
| Bookkeeping.StepBalance | app/services/transaction_service.py:263-292 | each commit changes an account's balance by what it adds to the account's ledger rows, plus one cent for a drifting deposit |
| Bookkeeping.BalanceIsLedgerPlusDrift | app/services/account_service.py:154-163 | after any history from the empty bank, each balance is its deposits and incoming transfers minus its outgoing ones, plus one cent per drifting deposit |
| Bookkeeping.BalanceEqualsLedgerIff | app/services/account_service.py:154-163 | the balance equals the ledger if and only if no deposit into the account drifted |
| Bookkeeping.ShortDepositsNeverDrift | app/services/account_service.py:154-163 | histories whose deposits have at most twelve decimals never drift |
| Conservation.TotalUpdate | app/models/account.py:53-59 | replacing one account moves its currency's total by the difference, whatever order the accounts are summed in |
| Conservation.MoneyIsConserved | app/services/transaction_service.py:242-264 | after any history, the balances in each currency add up to the deposits recorded in it, plus the drift: transfers neither create nor destroy money nor convert it |
| Conservation.CommitKeepsOneToOne | app/services/transaction_service.py:272-312 | each commit adds matching debit, credit and audit entry together, or none |
| Conservation.DoubleEntry | app/services/transaction_service.py:272-312 | in every committed state debits, credits and TRANSFER_COMPLETED entries match one to one with equal amounts and mirrored accounts, and deposits match DEPOSIT_COMPLETED entries |
| ProtocolInvariant.NextOk | app/services/transaction_service.py:180-314 | whatever statement a transaction runs next, what it relies on still holds afterwards |
| ProtocolInvariant.WritesAreMoves | app/services/transaction_service.py:263-267 | the absolute balances stored at commit are the committed balances minus and plus the amount |
| ProtocolInvariant.CommitLeavesAlone | app/services/transaction_service.py:89-105 | a commit never touches rows or keys that another transaction holds |
| ProtocolInvariant.StepKeepsInv | app/services/transaction_service.py:180-314 | every step of every transaction keeps the locks exclusive, locked copies fresh, validated conditions true and reserved keys new |
| ProtocolInvariant.StepRefines | app/api/v1/routers/transfers.py:73-86 | a commit is the atomic action of its request on the committed tables; every other step leaves them unchanged |
| Serializability.Serializable | app/services/transaction_service.py:180-314 | every interleaved run leaves exactly the tables of running its committed requests one at a time in commit order |
| Serializability.EveryRunKeepsTheBooks | app/services/transaction_service.py:254-292 | in every committed state of every run: balances in range, balance equals ledger plus drift, money conserved per currency, one-to-one entries, unique keys |
| Serializability.AccountsEndure | app/repositories/account_repository.py:102-147 | along every run accounts are never removed and keep their owner and currency |
| Serializability.OnlySupportedCurrencies | app/services/account_service.py:52-64 | in every reachable state every account is in a supported currency |
| Serializability.LocksAreExclusive | app/services/transaction_service.py:97-104 | in every reachable state no row and no key is held by two transactions, and whoever works on a locked row owns its lock |
| Serializability.FreshUnderLock | app/services/transaction_service.py:89-105 | in every reachable state, from lock grant to write, the cached copy is the committed row, though an unlocked read had cached a stale one |
| Serializability.WrittenOverFresh | app/services/transaction_service.py:263-267 | in every reachable state, from write to commit, the copy is the committed balance moved by this request alone: no lost update |
| Serializability.ChecksHoldAtCommit | app/services/transaction_service.py:239-264 | at a transfer's commit, in any run, both accounts are still active and of the currency, the source still belongs to the user and covers the amount, and exactly that amount moves |
| Serializability.DepositHoldsAtCommit | app/services/account_service.py:143-154 | at a deposit's commit, in any run, the account belongs to the user and only its balance changes, to the committed balance credited |
| Serializability.SameKeySamePair | app/services/transaction_service.py:183-192 | in any run, all successful responses under one key return the same committed pair, whatever raced |
| Serializability.PartialTransferOnlyOnCredits | app/services/transaction_service.py:186-197 | in any run the partial-transfer error is raised only for keys that end in the suffix and name another transfer's credit |
| Serializability.PartialTransferExactly | app/services/transaction_service.py:186-197 | a lone transfer gets that error if and only if the row under its key is a credit and its companion key is free |
| Serializability.OrderMatches | app/api/v1/routers/transfers.py:85-86 | the commit log lists each committed transaction exactly once |
| Serializability.AtMostOneCommitPerKey | app/services/transaction_service.py:272-292 | over all interleavings and retries, two requests never both commit under one key |
| Serializability.CommittedKeysAreShort | app/services/transaction_service.py:283-292 | in no run does a transfer commit under a key of more than 61 characters |
| Duplicates.VerdictStands | app/services/transaction_service.py:183-197 | what a transfer's lookup saw decides for the rest of any run whether it can ever answer from the idempotency check |
| Duplicates.DuplicateAnsweredExactly | app/services/transaction_service.py:183-192 | in any run where one of two transfers under one key commits, the other, finished and not cancelled, is answered with that pair if and only if its own lookup saw a row under the key |
| Duplicates.RetryInFlightIsReplayed | app/services/transaction_service.py:183-192 | a transfer that looks its key up after the original committed is answered with the original's pair, whatever else runs |
| Duplicates.DuplicateLosesRace | app/services/transaction_service.py:272-292 | from every reachable state at rest, whenever a transfer and its duplicate both look up before either commits, there is a run in which the first commits and the duplicate is refused on the unique key |
| Examples.RaceExample | app/services/transaction_service.py:183-292 | such a run from the empty bank, and the retry that is answered with the pair |
| Examples.CollisionExample | app/services/transaction_service.py:186-197 | a run from the empty bank after which a transfer keyed with a companion key gets the partial-transfer error |
| Examples.DriftIsReached | app/services/account_service.py:154-163 | every balance and amount that drift are reached by a run from the empty bank, which ends one cent above its ledger |
| Examples.DriftExample | app/services/account_service.py:154-163 | a concrete run so |
| Answers.TransferAnswers | app/services/transaction_service.py:183-314 | what a transfer answers: each failing condition, in order, with its error, the replay of a stored pair, and otherwise the committed debit and credit, field by field |
| Answers.TransferCommitsExactly | app/services/transaction_service.py:202-292 | a transfer commits if and only if amount, currency, accounts, owner, status, balances, limits and both keys are as listed |
| Answers.TransferDoes | app/services/transaction_service.py:263-314 | what it then does: the two balances, the two rows and the audit entry, and nothing else |
| Answers.TransferRuns | app/api/v1/routers/transfers.py:55-98 | the same of a transfer carried out statement by statement from any reachable state at rest |
| Answers.RefusalsAreJustified | app/services/transaction_service.py:183-267 | in every run, a request refused and not cancelled was refused with an error whose condition held of the committed tables while it was in flight |
| Answers.DepositAnswers | app/services/account_service.py:143-163 | what a deposit answers: each failing condition, in order, with its error, and otherwise the committed row |
| Answers.DepositDoes | app/services/account_service.py:154-173 | what it then does: the balance grows by the recorded cents and the drift, one row, one audit entry, and nothing else |
| Answers.PesosDeposited | app/services/account_service.py:125-179 | a deposit of n pesos into one's own account goes through, adds 100 * n cents and records them |
| Answers.OpenAnswers | app/services/account_service.py:52-79 | an account opens if and only if its currency is MXN or USD and its id is new, empty and active, with its audit entry |
| Answers.StatusAnswers | app/repositories/account_repository.py:138-147 | a status change changes the status of an existing account, and nothing else |
| Answers.EveryCommitIsAudited | app/services/transaction_service.py:297-312 | in every run each committed transfer, deposit and opening has its audit entry, with its own user, amount, currency, accounts and row ids |
| DeadlockFreedom.RanksAscend | app/services/transaction_service.py:86-104 | along a chain of waits, over row locks in UUID order and then keys by length, what is waited for strictly ascends |
| DeadlockFreedom.NoRunDeadlocks | app/services/transaction_service.py:86-104 | in no reachable state of any run does a chain of waits, for rows or keys or both, return to its start |
| DeadlockFreedom.SomeoneCanMove | app/services/transaction_service.py:272-292 | from any unfinished transaction the waits lead to one that can execute its next statement |
| DeadlockFreedom.MoveShortens | app/services/transaction_service.py:180-314 | every executed statement leaves strictly fewer to execute in the whole system |
| DeadlockFreedom.EveryRunCanFinish | app/services/transaction_service.py:180-314 | from every reachable state all requests in flight can complete, within the statements that remained and without cancelling any |
| DeadlockFreedom.EveryScheduleIsBounded | app/services/transaction_service.py:180-314 | under every schedule the statements executed are at most those that remained and those that arriving requests bring |
| DeadlockFreedom.AnyScheduleIsBounded | app/services/transaction_service.py:180-314 | from every reachable state, any schedule of the requests in flight executes at most the statements that remained |
| Promise.StatementKeepsHeading | app/services/transaction_service.py:180-314 | statement by statement a transaction keeps heading for one response on unchanged tables, and gives it when it ends |
| Promise.FinishUndisturbed | app/services/transaction_service.py:180-314 | a transaction finishes with the response it is heading for while nobody else holds a row or a key |
| Promise.AloneIsAtomic | app/services/transaction_service.py:135-314 | run while nobody else holds anything, statement by statement, every request gives the atomic action's response, error for error, and its tables |
| Promise.EveryHistoryIsReached | app/api/v1/routers/transfers.py:73-86 | the converse of serializability: every serial history from the empty bank is what some run commits |
| TransactionService.Session.constructor | app/api/v1/deps.py:55-66 | a fresh session joins the run as a new transaction |
| TransactionService.Session.Await | app/services/transaction_service.py:183-185 | at an await anything other requests can do may happen; the session's own state stays |
| TransactionService.Session.CheckIdempotency | app/services/transaction_service.py:183-213 | the first lookup and the input checks are the protocol's first statement, with its errors in order |
| TransactionService.Session.FetchCompanion | app/services/transaction_service.py:186-197 | the second lookup answers with the pair or the partial-transfer error, and never commits |
| TransactionService.Session.CheckOwnership | app/services/transaction_service.py:220-227 | the unlocked read fills the identity map or raises the ownership errors |
| TransactionService.Session.LockRow | app/services/transaction_service.py:97-104 | a granted lock records the owner and replaces the cached copy by the committed row |
| TransactionService.Session.LockAccountsForUpdate | app/services/transaction_service.py:64-111 | all rows end up locked in ascending order, or the statement raises not-found, or it is given up while it waits |
| TransactionService.Session.ValidateTransfer | app/services/transaction_service.py:239-258 | the rules on the locked copies give the first error in order, and none exactly when both accounts are active and of the currency, the source covers the amount and both new balances fit |
| TransactionService.Session.MoveBalances | app/services/transaction_service.py:263-267 | the two copies change by minus and plus the amount |
| TransactionService.Session.UpdateStatus | app/repositories/account_repository.py:138-147 | the status of a locked row changes, and nothing else of it |
| TransactionService.Session.ApplyDeposit | app/services/account_service.py:148-154 | a deposit credits the locked copy of the user's own account, or raises the error (the worth of an amount: `Money.WholeAmountsAreExact`, `Money.FractionsRoundToNearest`) |
| TransactionService.Session.CheckRow | app/models/transaction.py:67-81 | the column limits and the unique key decide whether a row can be inserted |
| TransactionService.Session.CreateRow | app/repositories/transaction_repository.py:66-79 | the row and its key are inserted uncommitted, or the database's error is raised, or the wait for the key is given up |
| TransactionService.Session.LogAudit | app/repositories/audit_log_repository.py:28-38 | the audit entry is inserted in the same transaction, uncommitted |
| TransactionService.Session.Commit | app/api/v1/routers/transfers.py:85-86 | balances, rows and audit entry become visible in one step and the locks are released |
| TransactionService.Session.Rollback | app/api/v1/deps.py:61-66 | nothing of the session reaches the tables and its locks are released |
| TransactionService.Session.ExecuteTransfer | app/services/transaction_service.py:135-314 | ends with the planned pair ready to commit, a replayed pair, or the error its next statement raises (which those are: `Answers.TransferAnswers`) |
| TransactionService.Session.DepositFunds | app/services/account_service.py:125-179 | ends with the planned row ready to commit, or the error its next statement raises (which those are: `Answers.DepositAnswers`) |
| TransactionService.Session.OpenAccount | app/services/account_service.py:31-79 | ends with the new account ready to commit, or the currency or key error |
| TransactionService.Session.Respond | app/api/v1/routers/transfers.py:73-98 | a commit is the request's atomic action on the tables of that moment; any other response leaves them |
| TransactionService.Session.CreateTransfer | app/api/v1/routers/transfers.py:55-98 | with others moving at every await: an atomic transfer or no change; a refusal had its reason in the tables; a successful answer is a committed pair, mirrored unless the key ends in the suffix; everything ever committed is serial |
| TransactionService.Session.CreateDeposit | app/api/v1/routers/accounts.py:115-137 | with others moving at every await: an atomic deposit (`Answers.DepositDoes`) or no change, and a refusal had its reason in the tables |
| TransactionService.Session.CreateAccount | app/api/v1/routers/accounts.py:62-78 | with others moving at every await: a new, active account with balance zero, or no change, and a refusal had its reason in the tables |
| Cursor.Base64RoundTrip | app/repositories/transaction_repository.py:26-39 | decoding an encoded byte string gives it back, for every length |
| Cursor.UuidRoundTrip | app/repositories/transaction_repository.py:26-39 | parsing a UUID's text gives the UUID back |
| Cursor.CursorRoundTrip | app/repositories/transaction_repository.py:26-41 | decoding the cursor of a row gives its id, for every 128-bit UUID |
| Cursor.CursorInjective | app/repositories/transaction_repository.py:26-28 | different rows have different cursors |
| Cursor.KnownEncodings | app/repositories/transaction_repository.py:28 | test vectors of section 10 of RFC 4648 |
| Cursor.GroupIsOneNumber | app/repositories/transaction_repository.py:28 | the four sextets and the three bytes of a group write the same 24-bit number |
| Cursor.BothAlphabetsAreRead | app/repositories/transaction_repository.py:38 | the decoder reads the URL-safe and the standard alphabet and skips every other character |
| Cursor.PaddingIsRequired | app/repositories/transaction_repository.py:37-41 | characters of the alphabets alone are decoded if and only if they come in groups of four |
| Cursor.UuidTextForm | app/repositories/transaction_repository.py:28 | a UUID's text is its 32 hexadecimal digits, highest first, with hyphens at the four places of section 4 of RFC 9562 |
| Cursor.BareDigitsAreRead | app/repositories/transaction_repository.py:39 | hexadecimal digits alone are a UUID if and only if there are 32, and then the number they write |
| Paging.MatchingIsSorted | app/repositories/transaction_repository.py:125-150 | a page query's rows are exactly those it selects, strictly newest first |
| Paging.NextPage | app/repositories/transaction_repository.py:125-164 | a page, on the columns: descending by creation time and then id, at most `limit` rows, all beyond the cursor's row; every row left out is older than every row shown; and there is a next cursor if and only if some row is left out |
| Paging.FirstPage | app/repositories/transaction_repository.py:125-164 | without a cursor: the account's newest rows, newest first |
| Paging.UnknownCursorStartsOver | app/repositories/transaction_repository.py:131-142 | a malformed cursor, or one that names no row, gives the first page |
| Paging.KeysetSlices | app/repositories/transaction_repository.py:131-150 | the keyset condition gives the part of the sorted history past the cursor's row |
| Paging.TransactionRepository.GetByAccountIdPaginated | app/repositories/transaction_repository.py:107-164 | the statement built in stages returns the slice of the history past the cursor, and a next cursor exactly when rows remain; a malformed or unknown cursor starts at the beginning; rows may be appended between its two statements |
| Paging.TransactionRepository.GetAccountTransactions | app/services/transaction_service.py:317-356 | only the owner of an existing account gets a page |
| Paging.CursorFindsRow | app/repositories/transaction_repository.py:137-143 | the cursor made from a row leads back to that row's place |
| Paging.GrowingWalk | app/repositories/transaction_repository.py:125-164 | while rows of any age are appended: the pages together are strictly descending, without duplicates, and at the end include every row committed when the walk began |
| Paging.FixedWalk | app/repositories/transaction_repository.py:125-164 | over a fixed ledger the walk from any cursor ends, with exactly the chunks of the sorted history past it |
| Paging.ChunksMakeUp | app/repositories/transaction_repository.py:157-162 | the chunks make up the history and all but the last are full |
| Paging.WholeWalk | app/repositories/transaction_repository.py:125-164 | from the first page on: exactly the account's rows, sorted, in pages of exactly `limit` but the last |
| Paging.WholeWalkNewestFirst | app/repositories/transaction_repository.py:125-164 | a whole walk on the columns: the account's rows, descending by creation time and then id |
| Paging.GrowingWalkNewestFirst | app/repositories/transaction_repository.py:125-164 | a walk over a growing ledger on the columns |
| Paging.SnapshotsGrow | app/repositories/transaction_repository.py:48-79 | any two snapshots of any run of the protocol are such as the walks assume: the earlier ledger is a prefix of the later |
| Tokens.ServeAlike | app/services/auth_service.py:198-216 | stores that differ in expired tokens answer every request alike and stay so related |
| Tokens.CleanupIsInvisible | app/repositories/refresh_token_repository.py:79-88 | clean-ups at any moments of any history change no reply |
| Tokens.CleanupTimesDoNotMatter | app/workers/cleanup_tasks.py:12-36 | histories of the same requests get the same replies whenever clean-up ran |
| Tokens.AcceptedExactly | app/services/auth_service.py:198-228 | a refresh is accepted if and only if its token was issued, has been neither rotated nor logged out since, and has not expired, whatever was cleaned up; the new token goes to the same user |
| Tokens.NeverAcceptedAgain | app/services/auth_service.py:198-216 | a token once rotated, or logged out after it was issued, is never accepted again: it has at most one successor |
| Tokens.OneLivePerChain | app/services/auth_service.py:215-228 | every login or registration starts a chain of distinct tokens in which all but the last are spent |
| Tokens.LiveTokensAreApart | app/services/auth_service.py:215-228 | two live tokens never share a chain |
| Tokens.ResetOnce | app/services/auth_service.py:340-360 | each reset token changes a password at most once |
| Tokens.ResetAcceptedExactly | app/services/auth_service.py:340-360 | a reset is accepted if and only if its token was requested for a known user, has not been used and has not expired, and then changes that user's password |
| Tokens.PasswordChanges | app/services/auth_service.py:343-360 | a user's password changes only to the one given with that user's own unused, unexpired reset token |
| Tokens.UsersStayUnique | app/services/auth_service.py:57-72 | no history gives two users one address or one id |
| Tokens.TokensAreEarned | app/services/auth_service.py:116-155 | a refresh token is issued only to a new user, to an active user with the right password, or to the user of a token that could be rotated |
| Tokens.RegisterAnswers | app/services/auth_service.py:57-84 | a registration is accepted if and only if address and id are unknown and the token is free, and stores an active user with just the password given and a token good for thirty days |
| Tokens.LoginAnswers | app/services/auth_service.py:116-162 | a login is accepted if and only if its password is that of the address's active user |
| Tokens.LoginAfterRegister | app/services/auth_service.py:65-71 | who has registered can log in with that password, and with no other |
| Tokens.LoginAfterReset | app/services/auth_service.py:353-360 | who has reset a password can log in with the new one, and with no other |
| Tokens.RefreshDoes | app/services/auth_service.py:201-228 | a rotation is accepted if and only if the token is stored, not revoked and not expired; it revokes that token and stores one good for thirty days, and changes nothing else |
| Tokens.LogoutDoes | app/services/auth_service.py:259-263 | a logout always succeeds and revokes the token if it is stored, and nothing else |
| Tokens.RequestResetAnswers | app/services/auth_service.py:298-325 | a known and an unknown address get the same answer; a token good for fifteen minutes is stored for a known one, nothing for an unknown one |
| Tokens.EntriesAre | app/services/auth_service.py:118-127 | the audit entries of registrations, logins, failed logins, rotations, logouts and resets, case by case |
| Tokens.ServeLogs | app/services/auth_service.py:233-239 | each request's audit entry commits with it and only with it |
| Tokens.IssuesAreAudited | app/services/auth_service.py:167-177 | over every history the audit log only grows, and gains as many registration, login and refresh entries for a user as tokens were issued to that user |
| AuthService.AuthSession.RegisterUser | app/services/auth_service.py:39-98 | one action of the state machine: a new user, a first token and an audit entry together, or no change (`Tokens.RegisterAnswers`) |
| AuthService.AuthSession.LoginUser | app/services/auth_service.py:101-179 | one action of the state machine: a new token for the right password of an active user, or a refusal, logged when the address or the password was wrong (`Tokens.LoginAnswers`) |
| AuthService.AuthSession.RefreshTokens | app/services/auth_service.py:182-243 | one action of the state machine: the old token revoked, a new one issued and the rotation logged together, or nothing |
| AuthService.AuthSession.LogoutUser | app/services/auth_service.py:246-276 | one action of the state machine: the token revoked if it is stored, and the logout logged each time |
| AuthService.AuthSession.RequestPasswordReset | app/services/auth_service.py:279-325 | one action of the state machine: a new reset token and its audit entry, and the same answer for an unknown address |
| AuthService.AuthSession.ConfirmPasswordReset | app/services/auth_service.py:328-371 | one action of the state machine: password changed, token used and reset logged together, or nothing |
| AuthService.AuthSession.UpdatePassword | app/repositories/user_repository.py:54-66 | exactly the user with that id gets the new password |
| AuthService.AuthSession.DeleteExpired | app/repositories/refresh_token_repository.py:79-88 | a token that has not expired stays as it is, one that has is gone, and the count is the number of those |
| AuthService.AuthSession.CleanupExpiredRefreshTokens | app/workers/cleanup_tasks.py:22-36 | one action of the state machine |
| UserContext.GetUserContext | app/api/v1/routers/internal.py:74-101 | each of the user's accounts is listed once, and for each currency present the total is the sum of those balances |
| UserContext.TransferShows | app/services/transaction_service.py:263-267 | a committed transfer takes its amount from the sender's total and adds it to the receiver's, and leaves every other total |
| UserContext.TotalsFollowCommits | app/services/transaction_service.py:263-267 | between any two snapshots of any run, a user's total changes by exactly what the commits in between add to it |
| UserContext.OwnTransfersAreInvisible | app/api/v1/routers/internal.py:81-101 | two snapshots of any run show a user the same totals when what was committed in between moved money only between that user's accounts or between others' |

## Left out

- A failing statement and its rollback are one step; nothing runs between them.
- Ledger.FindKey: column widths count characters; the database's own encoding of text is not modelled.
- Cursor.UuidRoundTrip: the parser accepts only hexadecimal digits, so the signs, blanks, underscores, `0x` and non-ASCII digits that Python's `int` also takes in a hand-made cursor are not modelled; encoded cursors contain none.
- Paging.GrowingWalk: row ids are taken to be unique, which is the primary key; a walk over a ledger that never stops growing need not end.
- Paging.TransactionRepository.GetByAccountIdPaginated: limits below one: the router lets only 1 to 100 through; zero returns an empty page, and negative limits are not modelled.
- TransactionService.Session.Await: the database's own choice of schedule; no fairness is assumed, so completion is stated as "can finish", with the bound on statements.
- TransactionService.Session.OpenAccount: account-number generation and its retries; the new row's key is checked at the insert and again at the commit.
- TransactionService.Session.CreateRow: generated row ids are taken not to collide.
- Tokens.AcceptedExactly: requests are served one at a time, since the code takes no lock there; drawn tokens are assumed new, hashing collision-free, and the clock never goes back.
- AuthService.AuthSession.LoginUser: network addresses and metadata of audit entries.
- AuthService.AuthSession.RequestPasswordReset: the answer of a development server, which shows the reset token.
- UserContext.GetUserContext: account numbers, types and the text form of balances.
- Upper-casing of currency codes: requests carry them upper-cased.
- Not-a-number and infinite decimals, which the schemas reject.
- Withdrawals, pending and reversed transactions: declared by the model classes, produced by no service.
- Foreign-key share locks on users, connection-pool limits, isolation levels other than READ COMMITTED.
- Routing, exception mapping, rate limiting, logging, Redis, WebSocket and Celery notifications: no deep state, and a transfer is committed before it is announced.
- Cards, device tokens, profiles, access-token signing, password hashing internals: single checks or external libraries.
