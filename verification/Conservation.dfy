/** Money is neither created nor destroyed by transfers, currency by currency; and debits,
    credits and audit entries are in one-to-one correspondence. */
module Conservation {
  import opened Ledger
  import opened AtomicBank
  import opened Bookkeeping
  import Money

  // ---------------------------------------------------------------------------
  // Totals over the accounts table
  // ---------------------------------------------------------------------------

  function InCurrency(a: Account, c: string): int
  {
    if a.currency == c then a.balance else 0
  }

  ghost function Pick(accounts: map<Uuid, Account>): (x: Uuid)
    requires accounts != map[]
    ensures x in accounts
  {
    assert accounts.Keys != {};
    var x :| x in accounts;
    x
  }

  /** The sum of all balances in currency c. */
  ghost function Total(accounts: map<Uuid, Account>, c: string): int
    decreases |accounts|
  {
    if accounts == map[] then 0
    else
      var x := Pick(accounts);
      InCurrency(accounts[x], c) + Total(accounts - {x}, c)
  }

  lemma {:induction false} TotalSplit(accounts: map<Uuid, Account>, x: Uuid, c: string)
    requires x in accounts
    ensures Total(accounts, c) == InCurrency(accounts[x], c) + Total(accounts - {x}, c)
    decreases |accounts|
  {
    var y := Pick(accounts);
    if x != y {
      TotalSplit(accounts - {y}, x, c);
      assert accounts - {y} - {x} == accounts - {x} - {y};
      TotalSplit(accounts - {x}, y, c);
    }
  }

  lemma TotalUpdate(accounts: map<Uuid, Account>, x: Uuid, a: Account, c: string)
    ensures Total(accounts[x := a], c) == InCurrency(a, c)
          + if x in accounts then Total(accounts, c) - InCurrency(accounts[x], c) else Total(accounts, c)
  {
    TotalSplit(accounts[x := a], x, c);
    assert accounts[x := a] - {x} == accounts - {x};
    if x in accounts {
      TotalSplit(accounts, x, c);
    } else {
      assert accounts - {x} == accounts;
    }
  }

  // ---------------------------------------------------------------------------
  // Deposits per currency
  // ---------------------------------------------------------------------------

  /** The deposits recorded in the ledger for accounts of currency c. */
  function Deposited(ledger: seq<Row>, accounts: map<Uuid, Account>, c: string): int
  {
    if |ledger| == 0 then 0
    else
      var last := ledger[|ledger| - 1];
      Deposited(ledger[..|ledger| - 1], accounts, c)
      + if last.kind == DepositRow && last.account in accounts && accounts[last.account].currency == c
        then last.amount else 0
  }

  lemma DepositedAppend(ledger: seq<Row>, r: Row, accounts: map<Uuid, Account>, c: string)
    ensures Deposited(ledger + [r], accounts, c) == Deposited(ledger, accounts, c)
          + if r.kind == DepositRow && r.account in accounts && accounts[r.account].currency == c then r.amount else 0
  {
    assert (ledger + [r])[..|ledger|] == ledger;
  }

  /** Every ledger row belongs to an account. */
  ghost predicate RowsHaveAccounts(b: Bank)
  {
    forall r :: r in b.ledger ==> r.account in b.accounts
  }

  /** Accounts stay, with their owner and currency. */
  ghost predicate Extends(before: map<Uuid, Account>, after: map<Uuid, Account>)
  {
    forall x :: x in before ==>
      x in after && after[x].currency == before[x].currency && after[x].owner == before[x].owner
  }

  lemma MovedExtends(accounts: map<Uuid, Account>, r: Request)
    requires Loaded(accounts, r)
    requires r.Open? ==> r.account !in accounts
    ensures Extends(accounts, Moved(accounts, r))
  {
  }

  lemma {:induction false} DepositedSame(
    ledger: seq<Row>, before: map<Uuid, Account>, after: map<Uuid, Account>, c: string)
    requires Extends(before, after) && forall r :: r in ledger ==> r.account in before
    ensures Deposited(ledger, before, c) == Deposited(ledger, after, c)
  {
    if |ledger| > 0 {
      DepositedSame(ledger[..|ledger| - 1], before, after, c);
      assert ledger[|ledger| - 1] in ledger;
    }
  }

  /** Drifting deposits of a commit log into accounts of currency c. */
  function DriftIn(b: Bank, log: seq<Request>, c: string): nat
  {
    if |log| == 0 then 0
    else
      var front, last := log[..|log| - 1], log[|log| - 1];
      var before := Replay(b, front);
      DriftIn(b, front, c)
      + if DriftsIn(before, last) && before.accounts[last.account].currency == c then 1 else 0
  }

  // ---------------------------------------------------------------------------
  // One request
  // ---------------------------------------------------------------------------

  lemma TransferConserves(accounts: map<Uuid, Account>, r: Request, c: string)
    requires r.Transfer? && r.source in accounts && r.target in accounts && r.source != r.target
    requires accounts[r.source].currency == accounts[r.target].currency
    ensures Total(Moved(accounts, r), c) == Total(accounts, c)
  {
    var debit := accounts[r.source].(balance := accounts[r.source].balance - r.amount);
    var debited := accounts[r.source := debit];
    var credit := debited[r.target].(balance := debited[r.target].balance + r.amount);
    TotalUpdate(accounts, r.source, debit, c);
    TotalUpdate(debited, r.target, credit, c);
  }

  lemma DepositAdds(accounts: map<Uuid, Account>, r: Request, c: string)
    requires r.Deposit? && r.requested.coefficient >= 0 && r.account in accounts
    requires accounts[r.account].balance >= 0 && Fits(Money.Credited(accounts[r.account].balance, r.requested))
    ensures Total(Moved(accounts, r), c) == Total(accounts, c)
          + (if accounts[r.account].currency == c then Money.LedgerCents(r.requested) else 0)
          + (if accounts[r.account].currency == c && Money.Drifts(accounts[r.account].balance, r.requested)
             then 1 else 0)
  {
    var a := accounts[r.account];
    TotalUpdate(accounts, r.account, a.(balance := Money.Credited(a.balance, r.requested)), c);
    Money.CreditedExactly(a.balance, r.requested);
  }

  lemma LedgerAdds(ledger: seq<Row>, r: Request, accounts: map<Uuid, Account>, c: string)
    requires r.Deposit? ==> r.account in accounts
    ensures Deposited(ledger + PlannedRows(r), accounts, c) == Deposited(ledger, accounts, c)
          + if r.Deposit? && accounts[r.account].currency == c then Money.LedgerCents(r.requested) else 0
  {
    var rows := PlannedRows(r);
    match r
    case Transfer(_, _, _, _, _, _, _, _, _, _, _) =>
      assert ledger + rows == (ledger + [rows[0]]) + [rows[1]];
      DepositedAppend(ledger, rows[0], accounts, c);
      DepositedAppend(ledger + [rows[0]], rows[1], accounts, c);
    case Deposit(_, _, _, _, _, _) =>
      assert rows == [rows[0]];
      DepositedAppend(ledger, rows[0], accounts, c);
    case SetStatus(_, _) => assert ledger + [] == ledger;
    case Open(_, _, _) => assert ledger + [] == ledger;
  }

  lemma TotalMoves(b: Bank, r: Request, c: string)
    requires BankOk(b) && Accepts(b, r)
    ensures Total(Apply(b, r).0.accounts, c) - Total(b.accounts, c)
         == (if r.Deposit? && b.accounts[r.account].currency == c then Money.LedgerCents(r.requested) else 0)
          + (if DriftsIn(b, r) && b.accounts[r.account].currency == c then 1 else 0)
  {
    AcceptedMeans(b, r);
    match r
    case Transfer(_, _, _, _, _, _, _, _, _, _, _) => TransferConserves(b.accounts, r, c);
    case Deposit(_, _, _, _, _, _) => DepositAdds(b.accounts, r, c);
    case SetStatus(a, st) => TotalUpdate(b.accounts, a, b.accounts[a].(status := st), c);
    case Open(a, user, cur) => TotalUpdate(b.accounts, a, Account(user, cur, 0, Active), c);
  }

  lemma DepositedMoves(b: Bank, r: Request, c: string)
    requires RowsHaveAccounts(b) && Accepts(b, r)
    ensures RowsHaveAccounts(Apply(b, r).0)
    ensures Deposited(Apply(b, r).0.ledger, Apply(b, r).0.accounts, c) - Deposited(b.ledger, b.accounts, c)
         == if r.Deposit? && b.accounts[r.account].currency == c then Money.LedgerCents(r.requested) else 0
  {
    AcceptedMeans(b, r);
    MovedExtends(b.accounts, r);
    DepositedSame(b.ledger, b.accounts, Moved(b.accounts, r), c);
    LedgerAdds(b.ledger, r, Moved(b.accounts, r), c);
  }

  /** In every state reached from the empty bank, the balances in a currency add up to the
      deposits recorded in it, plus one cent for each drifting deposit. */
  lemma {:induction false} MoneyIsConserved(log: seq<Request>, c: string)
    requires AllAccepted(EMPTY_BANK, log)
    ensures RowsHaveAccounts(Replay(EMPTY_BANK, log))
    ensures Total(Replay(EMPTY_BANK, log).accounts, c)
         == Deposited(Replay(EMPTY_BANK, log).ledger, Replay(EMPTY_BANK, log).accounts, c) + DriftIn(EMPTY_BANK, log, c)
  {
    if |log| > 0 {
      var front, last := log[..|log| - 1], log[|log| - 1];
      MoneyIsConserved(front, c);
      ReplayKeepsBankOk(EMPTY_BANK, front);
      TotalMoves(Replay(EMPTY_BANK, front), last, c);
      DepositedMoves(Replay(EMPTY_BANK, front), last, c);
    }
  }

  // ---------------------------------------------------------------------------
  // Double entry and audit
  // ---------------------------------------------------------------------------

  function RowsOf(ledger: seq<Row>, kind: Kind): seq<Row>
  {
    if |ledger| == 0 then []
    else
      var last := ledger[|ledger| - 1];
      RowsOf(ledger[..|ledger| - 1], kind) + if last.kind == kind then [last] else []
  }

  function TransferAudits(audit: seq<Audit>): seq<Audit>
  {
    if |audit| == 0 then []
    else
      var last := audit[|audit| - 1];
      TransferAudits(audit[..|audit| - 1]) + if last.TransferCompleted? then [last] else []
  }

  function DepositAudits(audit: seq<Audit>): seq<Audit>
  {
    if |audit| == 0 then []
    else
      var last := audit[|audit| - 1];
      DepositAudits(audit[..|audit| - 1]) + if last.DepositCompleted? then [last] else []
  }

  predicate AuditsPair(e: Audit, out: Row, credit: Row)
  {
    && e.TransferCompleted?
    && e.txOut == out.id && e.txIn == credit.id && e.amount == out.amount
    && e.fromAccount == out.account && e.toAccount == credit.account
  }

  predicate AuditsDeposit(e: Audit, row: Row)
  {
    && e.DepositCompleted? && e.txId == row.id && e.account == row.account
    && row.amount == Money.LedgerCents(e.requested)
  }

  /** Debits, credits and TRANSFER_COMPLETED entries match position by position, and so do
      deposits and DEPOSIT_COMPLETED entries. */
  ghost predicate OneToOne(b: Bank)
  {
    var outs, ins := RowsOf(b.ledger, TransferOut), RowsOf(b.ledger, TransferIn);
    var deposits := RowsOf(b.ledger, DepositRow);
    var transfers, credits := TransferAudits(b.audit), DepositAudits(b.audit);
    && |outs| == |ins| == |transfers|
    && (forall i :: 0 <= i < |outs| ==> Mirrors(outs[i], ins[i]) && AuditsPair(transfers[i], outs[i], ins[i]))
    && |deposits| == |credits|
    && (forall i :: 0 <= i < |deposits| ==> AuditsDeposit(credits[i], deposits[i]))
  }

  lemma RowsOfAppend(ledger: seq<Row>, r: Row, kind: Kind)
    ensures RowsOf(ledger + [r], kind) == RowsOf(ledger, kind) + if r.kind == kind then [r] else []
  {
    assert (ledger + [r])[..|ledger|] == ledger;
  }

  lemma AuditAppend(audit: seq<Audit>, e: Audit)
    ensures TransferAudits(audit + [e]) == TransferAudits(audit) + if e.TransferCompleted? then [e] else []
    ensures DepositAudits(audit + [e]) == DepositAudits(audit) + if e.DepositCompleted? then [e] else []
  {
    assert (audit + [e])[..|audit|] == audit;
  }

  lemma PlannedRowsOf(ledger: seq<Row>, r: Request, kind: Kind)
    ensures RowsOf(ledger + PlannedRows(r), kind) == RowsOf(ledger, kind)
          + (match r
             case Transfer(_, _, _, _, _, _, _, _, _, _, _) =>
               if kind == TransferOut then [PlannedRows(r)[0]]
               else if kind == TransferIn then [PlannedRows(r)[1]] else []
             case Deposit(_, _, _, _, _, _) => if kind == DepositRow then PlannedRows(r) else []
             case SetStatus(_, _) => []
             case Open(_, _, _) => [])
  {
    var rows := PlannedRows(r);
    match r
    case Transfer(_, _, _, _, _, _, _, _, _, _, _) =>
      assert ledger + rows == (ledger + [rows[0]]) + [rows[1]];
      RowsOfAppend(ledger, rows[0], kind);
      RowsOfAppend(ledger + [rows[0]], rows[1], kind);
    case Deposit(_, _, _, _, _, _) =>
      assert rows == [rows[0]];
      RowsOfAppend(ledger, rows[0], kind);
    case SetStatus(_, _) => assert ledger + [] == ledger;
    case Open(_, _, _) => assert ledger + [] == ledger;
  }

  lemma CommitKeepsOneToOne(b: Bank, r: Request)
    requires OneToOne(b) && Accepts(b, r)
    ensures OneToOne(Apply(b, r).0)
  {
    AcceptedMeans(b, r);
    PlannedRowsOf(b.ledger, r, TransferOut);
    PlannedRowsOf(b.ledger, r, TransferIn);
    PlannedRowsOf(b.ledger, r, DepositRow);
    var audits := PlannedAudits(r);
    if r.SetStatus? {
      assert b.audit + audits == b.audit;
    } else {
      assert audits == [audits[0]];
      AuditAppend(b.audit, audits[0]);
    }
  }

  /** No committed state has a debit without its credit and audit entry, or an audit entry
      without its rows. */
  lemma {:induction false} DoubleEntry(log: seq<Request>)
    requires AllAccepted(EMPTY_BANK, log)
    ensures OneToOne(Replay(EMPTY_BANK, log))
  {
    if |log| > 0 {
      DoubleEntry(log[..|log| - 1]);
      CommitKeepsOneToOne(Replay(EMPTY_BANK, log[..|log| - 1]), log[|log| - 1]);
    }
  }
}
