/** The atomic bank: what each request does to the committed tables when it runs alone, as one
    indivisible action. The interleaved protocol is proved to refine this. */
module AtomicBank {
  import opened Wrappers
  import opened Ledger
  import Money

  /** The requests that touch accounts. Row ids and timestamps are drawn by the client of the
      database, so they come with the request; currencies are already upper-cased. */
  datatype Request =
    | Transfer(source: Uuid, target: Uuid, amount: int, currency: string, key: string, user: Uuid,
               outId: Uuid, inId: Uuid, outAt: int, inAt: int, description: Option<string>)
    | Deposit(account: Uuid, user: Uuid, requested: Money.Decimal, rowId: Uuid, at: int, description: Option<string>)
    | SetStatus(account: Uuid, status: Status)
    | Open(account: Uuid, user: Uuid, currency: string)

  /** The domain exceptions, and the database errors that abort a request. */
  datatype Error =
    | InsufficientFunds | UnsupportedCurrency | AccountNotFound | Unauthorized | AccountFrozen
    | PartialTransfer      // transfer_out found, companion missing
    | DataError            // value too wide for its column
    | DuplicateKey         // unique constraint
    | Cancelled            // connection lost, timeout, shutdown

  datatype Outcome = Committed(rows: seq<Row>) | Replayed(out: Row, companion: Row) | Refused(error: Error)

  /** What the routers' schemas let through to the services. */
  predicate SchemaAccepts(r: Request)
  {
    r.Deposit? ==> r.requested.coefficient > 0
  }

  // ---------------------------------------------------------------------------
  // The rows a request inserts
  // ---------------------------------------------------------------------------

  /** `description or "External deposit"`. */
  function DepositText(description: Option<string>): string
  {
    if description.Some? && description.value != "" then description.value else "External deposit"
  }

  function PlannedRows(r: Request): (rows: seq<Row>)
    ensures |rows| <= 2
  {
    match r
    case Transfer(s, t, amount, _, k, _, outId, inId, outAt, inAt, text) =>
      [Row(outId, s, TransferOut, amount, Some(t), Some(k), text, outAt),
       Row(inId, t, TransferIn, amount, Some(s), Some(Companion(k)), text, inAt)]
    case Deposit(a, _, d, id, at, text) =>
      [Row(id, a, DepositRow, Money.LedgerCents(d), None, None, Some(DepositText(text)), at)]
    case SetStatus(_, _) => []
    case Open(_, _, _) => []
  }

  function PlannedAudits(r: Request): seq<Audit>
  {
    match r
    case Transfer(s, t, amount, c, _, user, outId, inId, _, _, _) =>
      [TransferCompleted(user, outId, inId, amount, c, s, t)]
    case Deposit(a, user, d, id, _, _) => [DepositCompleted(user, id, d, a)]
    case SetStatus(_, _) => []
    case Open(a, user, c) => [AccountCreated(user, a, c)]
  }

  // ---------------------------------------------------------------------------
  // Checks, in the order the services make them
  // ---------------------------------------------------------------------------

  /** The checks that need no table. */
  function LocalRefusal(r: Request): Option<Error>
    requires r.Transfer?
  {
    if r.amount <= 0 then Some(InsufficientFunds)
    else if r.currency !in SUPPORTED_CURRENCIES then Some(UnsupportedCurrency)
    else if r.source == r.target then Some(AccountNotFound)
    else None
  }

  /** The ownership check on the source account. */
  function SourceRefusal(accounts: map<Uuid, Account>, r: Request): Option<Error>
    requires r.Transfer?
  {
    if r.source !in accounts then Some(AccountNotFound)
    else if accounts[r.source].owner != r.user then Some(Unauthorized)
    else None
  }

  /** The accounts a request works on are all there. */
  predicate Loaded(accounts: map<Uuid, Account>, r: Request)
  {
    match r
    case Transfer(s, t, _, _, _, _, _, _, _, _, _) => s in accounts && t in accounts
    case Deposit(a, _, _, _, _, _) => a in accounts
    case SetStatus(a, _) => a in accounts
    case Open(_, _, _) => true
  }

  /** Two versions of the accounts agree on those the request works on. */
  predicate AgreeOn(one: map<Uuid, Account>, two: map<Uuid, Account>, r: Request)
  {
    && Loaded(one, r) && Loaded(two, r)
    && match r
       case Transfer(s, t, _, _, _, _, _, _, _, _, _) => one[s] == two[s] && one[t] == two[t]
       case Deposit(a, _, _, _, _, _) => one[a] == two[a]
       case SetStatus(a, _) => one[a] == two[a]
       case Open(_, _, _) => true
  }

  /** The rules checked on the locked rows, and the column limits met when they are written. */
  function Refusal(accounts: map<Uuid, Account>, r: Request): Option<Error>
    requires Loaded(accounts, r)
  {
    match r
    case Transfer(s, t, amount, c, _, _, _, _, _, _, _) =>
      if accounts[s].status != Active || accounts[t].status != Active then Some(AccountFrozen)
      else if accounts[s].currency != c || accounts[t].currency != c then Some(UnsupportedCurrency)
      else if accounts[s].balance < amount then Some(InsufficientFunds)
      else if !Fits(accounts[s].balance - amount) || !Fits(accounts[t].balance + amount) then Some(DataError)
      else None
    case Deposit(a, user, d, _, _, _) =>
      if accounts[a].owner != user then Some(Unauthorized)
      else if !Fits(Money.Credited(accounts[a].balance, d)) then Some(DataError)
      else None
    case SetStatus(_, _) => None
    case Open(_, _, _) => None
  }

  /** Why inserting this row fails, if it does. */
  function RowRefusal(ledger: seq<Row>, row: Row): Option<Error>
  {
    if row.key.Some? && |row.key.value| > KEY_WIDTH then Some(DataError)
    else if row.description.Some? && |row.description.value| > DESCRIPTION_WIDTH then Some(DataError)
    else if !Fits(row.amount) then Some(DataError)
    else if row.key.Some? && FindKey(ledger, row.key.value).Some? then Some(DuplicateKey)
    else None
  }

  // ---------------------------------------------------------------------------
  // The atomic actions
  // ---------------------------------------------------------------------------

  function SetBalance(accounts: map<Uuid, Account>, id: Uuid, cents: int): map<Uuid, Account>
    requires id in accounts
  {
    accounts[id := accounts[id].(balance := cents)]
  }

  /** The accounts after a request that nothing refused. */
  function Moved(accounts: map<Uuid, Account>, r: Request): map<Uuid, Account>
    requires Loaded(accounts, r)
  {
    match r
    case Transfer(s, t, amount, _, _, _, _, _, _, _, _) =>
      var debited := SetBalance(accounts, s, accounts[s].balance - amount);
      SetBalance(debited, t, debited[t].balance + amount)
    case Deposit(a, _, d, _, _, _) => SetBalance(accounts, a, Money.Credited(accounts[a].balance, d))
    case SetStatus(a, st) => accounts[a := accounts[a].(status := st)]
    case Open(a, user, c) => accounts[a := Account(user, c, 0, Active)]
  }

  function Done(b: Bank, r: Request): (Bank, Outcome)
    requires Loaded(b.accounts, r)
  {
    (Bank(Moved(b.accounts, r), b.ledger + PlannedRows(r), b.audit + PlannedAudits(r)), Committed(PlannedRows(r)))
  }

  /** The whole request as one action: the new tables and the response. */
  function Apply(b: Bank, r: Request): (Bank, Outcome)
  {
    match r
    case Transfer(_, _, _, _, _, _, _, _, _, _, _) => ApplyTransfer(b, r)
    case Deposit(_, _, _, _, _, _) =>
      if r.account !in b.accounts then (b, Refused(AccountNotFound))
      else if Refusal(b.accounts, r).Some? then (b, Refused(Refusal(b.accounts, r).value))
      else
        var rowError := RowRefusal(b.ledger, PlannedRows(r)[0]);
        if rowError.Some? then (b, Refused(rowError.value)) else Done(b, r)
    case SetStatus(_, _) =>
      if r.account !in b.accounts then (b, Refused(AccountNotFound)) else Done(b, r)
    case Open(_, _, _) =>
      if r.currency !in SUPPORTED_CURRENCIES then (b, Refused(UnsupportedCurrency))
      else if r.account in b.accounts then (b, Refused(DuplicateKey))
      else Done(b, r)
  }

  function ApplyTransfer(b: Bank, r: Request): (Bank, Outcome)
    requires r.Transfer?
  {
    var seen := FindKey(b.ledger, r.key);
    var companion := FindKey(b.ledger, Companion(r.key));
    var early := if LocalRefusal(r).Some? then LocalRefusal(r) else SourceRefusal(b.accounts, r);
    if seen.Some? then
      (b, if companion.Some? then Replayed(seen.value, companion.value) else Refused(PartialTransfer))
    else if early.Some? then (b, Refused(early.value))
    else if r.target !in b.accounts then (b, Refused(AccountNotFound))
    else if Refusal(b.accounts, r).Some? then (b, Refused(Refusal(b.accounts, r).value))
    else
      var rows := PlannedRows(r);
      var firstError := RowRefusal(b.ledger, rows[0]);
      var secondError := RowRefusal(b.ledger, rows[1]);
      if firstError.Some? then (b, Refused(firstError.value))
      else if secondError.Some? then (b, Refused(secondError.value))
      else Done(b, r)
  }

  /** The request goes through on these tables. */
  predicate Accepts(b: Bank, r: Request)
  {
    SchemaAccepts(r) && Apply(b, r).1.Committed?
  }

  /** Every request of a commit log goes through, in order, from the tables b. */
  predicate AllAccepted(b: Bank, log: seq<Request>)
  {
    if |log| == 0 then true
    else
      var front, last := log[..|log| - 1], log[|log| - 1];
      AllAccepted(b, front) && Accepts(Replay(b, front), last)
  }

  /** The tables after running a commit log one request at a time. */
  function Replay(b: Bank, log: seq<Request>): Bank
  {
    if |log| == 0 then b
    else
      var front, last := log[..|log| - 1], log[|log| - 1];
      Apply(Replay(b, front), last).0
  }

  const EMPTY_BANK := Bank(map[], [], [])

  lemma ReplayAppend(b: Bank, log: seq<Request>, r: Request)
    requires AllAccepted(b, log) && Accepts(Replay(b, log), r)
    ensures AllAccepted(b, log + [r]) && Replay(b, log + [r]) == Apply(Replay(b, log), r).0
  {
    assert (log + [r])[..|log|] == log;
  }

  /** What acceptance means, request by request. */
  lemma AcceptedMeans(b: Bank, r: Request)
    requires Accepts(b, r)
    ensures Loaded(b.accounts, r)
    ensures r.Transfer? ==> LocalRefusal(r).None? && SourceRefusal(b.accounts, r).None?
    ensures r.Transfer? ==> FindKey(b.ledger, r.key).None?
    ensures r.Open? ==> r.account !in b.accounts
    ensures Refusal(b.accounts, r).None?
    ensures forall row :: row in PlannedRows(r) ==> RowRefusal(b.ledger, row).None?
    ensures Apply(b, r) == Done(b, r)
  {
    var rows := PlannedRows(r);
    if r.Transfer? { assert rows == [rows[0], rows[1]]; }
    if r.Deposit? { assert rows == [rows[0]]; }
  }

  /** A refused or replayed request leaves every table as it was. */
  lemma OnlyCommitsWrite(b: Bank, r: Request)
    ensures !Apply(b, r).1.Committed? ==> Apply(b, r).0 == b
  {
  }
}
