/** What every committed state keeps: bounded balances, unique keys and matched pairs of rows;
    and how balances, ledger and audit log of a replayed commit log agree. */
module Bookkeeping {
  import opened Wrappers
  import opened Ledger
  import opened AtomicBank
  import Money

  // ---------------------------------------------------------------------------
  // The invariant of the committed tables
  // ---------------------------------------------------------------------------

  ghost predicate BalancesFit(accounts: map<Uuid, Account>)
  {
    forall x :: x in accounts ==> Fits(accounts[x].balance)
  }

  /** No two rows carry the same idempotency key. */
  ghost predicate KeysUnique(ledger: seq<Row>)
  {
    forall i, j :: 0 <= i < j < |ledger| && ledger[i].key.Some? ==> ledger[i].key != ledger[j].key
  }

  /** The credit mirrors the debit: same amount, swapped accounts, companion key. */
  predicate Mirrors(out: Row, credit: Row)
  {
    && out.kind == TransferOut && credit.kind == TransferIn
    && out.amount == credit.amount > 0
    && out.counterparty == Some(credit.account) && credit.counterparty == Some(out.account)
    && out.key.Some? && credit.key == Some(Companion(out.key.value))
  }

  /** The row stands for a deposit, or for one half of a pair whose other half is stored too. */
  ghost predicate Balanced(ledger: seq<Row>, r: Row)
  {
    match r.kind
    case DepositRow => r.key.None?
    case TransferOut =>
      r.key.Some? && var c := FindKey(ledger, Companion(r.key.value)); c.Some? && Mirrors(r, c.value)
    case TransferIn =>
      r.key.Some? && EndsInSuffix(r.key.value)
      && var o := FindKey(ledger, r.key.value[..|r.key.value| - 3]); o.Some? && Mirrors(o.value, r)
  }

  ghost predicate LedgerOk(ledger: seq<Row>)
  {
    KeysUnique(ledger) && forall r :: r in ledger ==> Balanced(ledger, r)
  }

  ghost predicate BankOk(b: Bank)
  {
    BalancesFit(b.accounts) && LedgerOk(b.ledger)
  }

  lemma MovedFits(accounts: map<Uuid, Account>, r: Request)
    requires BalancesFit(accounts)
    requires Loaded(accounts, r) && (r.Transfer? ==> r.source != r.target)
    requires Refusal(accounts, r).None?
    ensures BalancesFit(Moved(accounts, r))
  {
  }

  /** Appending a row whose key is new keeps every earlier row's partner. */
  lemma BalancedKept(ledger: seq<Row>, more: Row, r: Row)
    requires more.key.Some? ==> FindKey(ledger, more.key.value).None?
    requires Balanced(ledger, r)
    ensures Balanced(ledger + [more], r)
  {
    match r.kind
    case DepositRow =>
    case TransferOut => FindKeyAppend(ledger, more, Companion(r.key.value));
    case TransferIn => FindKeyAppend(ledger, more, r.key.value[..|r.key.value| - 3]);
  }

  lemma UniqueKept(ledger: seq<Row>, more: Row)
    requires KeysUnique(ledger)
    requires more.key.Some? ==> FindKey(ledger, more.key.value).None?
    ensures KeysUnique(ledger + [more])
  {
    var l := ledger + [more];
    forall i, j | 0 <= i < j < |l| && l[i].key.Some?
      ensures l[i].key != l[j].key
    {
      assert l[i] in ledger;
    }
  }

  lemma DepositKeepsLedger(ledger: seq<Row>, row: Row)
    requires LedgerOk(ledger) && row.kind == DepositRow && row.key.None?
    ensures LedgerOk(ledger + [row])
  {
    UniqueKept(ledger, row);
    forall r | r in ledger + [row]
      ensures Balanced(ledger + [row], r)
    {
      if r in ledger { BalancedKept(ledger, row, r); }
    }
  }

  lemma PairIsBalanced(ledger: seq<Row>, out: Row, credit: Row)
    requires Mirrors(out, credit)
    ensures var two := (ledger + [out]) + [credit]; Balanced(two, out) && Balanced(two, credit)
  {
    var one, k := ledger + [out], out.key.value;
    CompanionEndsInSuffix(k);
    assert credit.key.value[..|credit.key.value| - 3] == k;
    FindKeyAppend(one, credit, Companion(k));
    FindKeyAppend(ledger, out, k);
    FindKeyAppend(one, credit, k);
  }

  lemma PairKeepsLedger(ledger: seq<Row>, out: Row, credit: Row)
    requires LedgerOk(ledger) && Mirrors(out, credit)
    requires FindKey(ledger, out.key.value).None? && FindKey(ledger, credit.key.value).None?
    ensures LedgerOk((ledger + [out]) + [credit])
  {
    var one, two := ledger + [out], (ledger + [out]) + [credit];
    CompanionEndsInSuffix(out.key.value);
    FindKeyAppend(ledger, out, credit.key.value);
    UniqueKept(ledger, out);
    UniqueKept(one, credit);
    PairIsBalanced(ledger, out, credit);
    forall r | r in two
      ensures Balanced(two, r)
    {
      if r in ledger {
        BalancedKept(ledger, out, r);
        BalancedKept(one, credit, r);
      }
    }
  }

  /** Every request keeps the invariant of the committed tables. */
  lemma ApplyKeepsBankOk(b: Bank, r: Request)
    requires BankOk(b)
    ensures BankOk(Apply(b, r).0)
  {
    if Apply(b, r).1.Committed? {
      match r
      case Transfer(_, _, _, _, _, _, _, _, _, _, _) =>
        MovedFits(b.accounts, r);
        var rows := PlannedRows(r);
        PairKeepsLedger(b.ledger, rows[0], rows[1]);
        assert b.ledger + rows == (b.ledger + [rows[0]]) + [rows[1]];
      case Deposit(_, _, _, _, _, _) =>
        MovedFits(b.accounts, r);
        DepositKeepsLedger(b.ledger, PlannedRows(r)[0]);
        assert PlannedRows(r) == [PlannedRows(r)[0]];
      case SetStatus(_, _) =>
        assert b.ledger + [] == b.ledger;
      case Open(_, _, _) =>
        assert b.ledger + [] == b.ledger;
    }
  }

  lemma {:induction false} ReplayKeepsBankOk(b: Bank, log: seq<Request>)
    requires BankOk(b)
    ensures BankOk(Replay(b, log))
  {
    if |log| > 0 {
      ReplayKeepsBankOk(b, log[..|log| - 1]);
      ApplyKeepsBankOk(Replay(b, log[..|log| - 1]), log[|log| - 1]);
    }
  }

  // ---------------------------------------------------------------------------
  // Pairs and keys
  // ---------------------------------------------------------------------------

  /** A replay of key k returns a genuine debit and its credit exactly when the row stored
      under k is a debit. A row under a key that does not end in the suffix always is. */
  lemma ReplayIsGenuine(b: Bank, k: string)
    requires BankOk(b) && FindKey(b.ledger, k).Some?
    ensures var found, companion := FindKey(b.ledger, k).value, FindKey(b.ledger, Companion(k));
            (companion.Some? && Mirrors(found, companion.value)) <==> found.kind == TransferOut
    ensures !EndsInSuffix(k) ==> FindKey(b.ledger, k).value.kind == TransferOut
  {
    var r := FindKey(b.ledger, k).value;
    assert Balanced(b.ledger, r);
  }

  lemma CommitKeepsKeys(b: Bank, r: Request, k: string)
    requires Accepts(b, r) && FindKey(b.ledger, k).Some?
    ensures FindKey(Apply(b, r).0.ledger, k) == FindKey(b.ledger, k)
  {
    AcceptedMeans(b, r);
    FindKeyKeeps(b.ledger, PlannedRows(r), k);
  }

  lemma CommitStoresKeys(b: Bank, r: Request)
    requires Accepts(b, r) && r.Transfer?
    ensures FindKey(Apply(b, r).0.ledger, r.key) == Some(PlannedRows(r)[0])
    ensures FindKey(Apply(b, r).0.ledger, Companion(r.key)) == Some(PlannedRows(r)[1])
  {
    AcceptedMeans(b, r);
    PairStored(b.ledger, PlannedRows(r));
    CompanionEndsInSuffix(r.key);
  }

  lemma PairStored(ledger: seq<Row>, rows: seq<Row>)
    requires |rows| == 2 && rows[0].key.Some? && rows[1].key.Some? && rows[0].key != rows[1].key
    ensures FindKey(ledger + rows, rows[0].key.value) == Some(rows[0])
    ensures FindKey(ledger + rows, rows[1].key.value) == Some(rows[1])
  {
    assert ledger + rows == (ledger + [rows[0]]) + [rows[1]];
    FindKeyAppend(ledger, rows[0], rows[0].key.value);
    FindKeyAppend(ledger + [rows[0]], rows[1], rows[0].key.value);
    FindKeyAppend(ledger + [rows[0]], rows[1], rows[1].key.value);
  }

  /** The debit of a committed transfer stays stored under its key, and its credit under the
      companion key. */
  lemma {:induction false} KeyStored(b: Bank, log: seq<Request>, i: nat)
    requires AllAccepted(b, log) && i < |log| && log[i].Transfer?
    ensures FindKey(Replay(b, log).ledger, log[i].key) == Some(PlannedRows(log[i])[0])
    ensures FindKey(Replay(b, log).ledger, Companion(log[i].key)) == Some(PlannedRows(log[i])[1])
  {
    var front, last := log[..|log| - 1], log[|log| - 1];
    var mid := Replay(b, front);
    assert Replay(b, log) == Apply(mid, last).0 && Accepts(mid, last);
    if i < |front| {
      KeyStored(b, front, i);
      assert front[i] == log[i];
      CommitKeepsKeys(mid, last, log[i].key);
      CommitKeepsKeys(mid, last, Companion(log[i].key));
    } else {
      CommitStoresKeys(mid, last);
    }
  }

  /** A commit log holds at most one transfer under each key. */
  lemma AtMostOneTransferPerKey(b: Bank, log: seq<Request>, i: nat, j: nat)
    requires AllAccepted(b, log) && i < j < |log|
    requires log[i].Transfer? && log[j].Transfer?
    ensures log[i].key != log[j].key
  {
    PrefixAccepted(b, log, j + 1);
    var front := log[..j];
    assert log[..j + 1][..j] == front && log[..j + 1][j] == log[j];
    KeyStored(b, front, i);
    AcceptedMeans(Replay(b, front), log[j]);
  }

  /** Retrying is safe: once a transfer has committed, a request under its key, whatever else it
      asks for and whatever was committed in between, is answered with the original pair and
      changes nothing. */
  lemma RetryIsReplayed(b: Bank, log: seq<Request>, i: nat, r: Request)
    requires AllAccepted(b, log) && i < |log| && log[i].Transfer?
    requires r.Transfer? && r.key == log[i].key
    ensures Apply(Replay(b, log), r) == (Replay(b, log), Replayed(PlannedRows(log[i])[0], PlannedRows(log[i])[1]))
  {
    KeyStored(b, log, i);
  }

  /** The longest client key is three characters shorter than the column, though the schema and the
      service's description allow its whole width: a transfer that passes every rule, with both
      keys unused, commits exactly when its key has at most 61 characters and its description, if
      any, fits. */
  lemma LongKeysNeverCommit(b: Bank, r: Request)
    requires BankOk(b) && r.Transfer? && LocalRefusal(r).None? && SourceRefusal(b.accounts, r).None?
    requires r.target in b.accounts && Refusal(b.accounts, r).None?
    requires FindKey(b.ledger, r.key).None? && FindKey(b.ledger, Companion(r.key)).None?
    ensures Apply(b, r).1
         == if |r.key| <= 61 && (r.description.None? || |r.description.value| <= DESCRIPTION_WIDTH)
            then Committed(PlannedRows(r)) else Refused(DataError)
  {
    assert Fits(b.accounts[r.source].balance);
  }

  /** A key that is another transfer's companion key is answered with the partial-transfer error,
      though nothing is partial, unless its own companion key is taken too. */
  lemma CompanionKeysCollide(b: Bank, r: Request, other: Request)
    requires Accepts(b, r) && r.Transfer? && other.Transfer? && other.key == Companion(r.key)
    requires FindKey(b.ledger, Companion(other.key)).None?
    ensures Apply(Apply(b, r).0, other) == (Apply(b, r).0, Refused(PartialTransfer))
  {
    CommitStoresKeys(b, r);
    AcceptedMeans(b, r);
    CompanionIsNeither(r.key);
    assert KeysOf(PlannedRows(r)) == {r.key, Companion(r.key)};
    AbsentKey(b.ledger, PlannedRows(r), Companion(other.key));
  }

  lemma CompanionIsNeither(k: string)
    ensures Companion(Companion(k)) != k && Companion(Companion(k)) != Companion(k)
  {
    assert |Companion(Companion(k))| == |k| + 6;
  }

  lemma {:induction false} PrefixAccepted(b: Bank, log: seq<Request>, n: nat)
    requires AllAccepted(b, log) && n <= |log|
    ensures AllAccepted(b, log[..n])
  {
    if n == |log| {
      assert log[..n] == log;
    } else {
      PrefixAccepted(b, log[..|log| - 1], n);
      assert log[..|log| - 1][..n] == log[..n];
    }
  }

  // ---------------------------------------------------------------------------
  // Balance equals ledger
  // ---------------------------------------------------------------------------

  function Signed(r: Row): int
  {
    if r.kind == TransferOut then -r.amount else r.amount
  }

  /** Deposits and transfer credits of an account, minus its transfer debits. */
  function LedgerBalance(ledger: seq<Row>, a: Uuid): int
  {
    if |ledger| == 0 then 0
    else
      var last := ledger[|ledger| - 1];
      LedgerBalance(ledger[..|ledger| - 1], a) + if last.account == a then Signed(last) else 0
  }

  lemma LedgerBalanceAppend(ledger: seq<Row>, r: Row, a: Uuid)
    ensures LedgerBalance(ledger + [r], a) == LedgerBalance(ledger, a) + if r.account == a then Signed(r) else 0
  {
    assert (ledger + [r])[..|ledger|] == ledger;
  }

  /** The balance of an account, zero before it is opened. */
  function BalanceOf(b: Bank, a: Uuid): int
  {
    if a in b.accounts then b.accounts[a].balance else 0
  }

  /** The request is a deposit whose two roundings leave the balance one cent ahead. */
  predicate DriftsIn(b: Bank, r: Request)
  {
    r.Deposit? && r.account in b.accounts && Money.Drifts(b.accounts[r.account].balance, r.requested)
  }

  /** How many drifting deposits of a commit log went to account a. */
  function DriftOn(b: Bank, log: seq<Request>, a: Uuid): nat
  {
    if |log| == 0 then 0
    else
      var front, last := log[..|log| - 1], log[|log| - 1];
      DriftOn(b, front, a)
      + if last.Deposit? && last.account == a && DriftsIn(Replay(b, front), last) then 1 else 0
  }

  lemma TransferMoves(accounts: map<Uuid, Account>, ledger: seq<Row>, r: Request, a: Uuid)
    requires r.Transfer? && r.source in accounts && r.target in accounts && r.source != r.target
    ensures a in Moved(accounts, r) <==> a in accounts
    ensures a in accounts ==> (
      Moved(accounts, r)[a].balance - accounts[a].balance
      == LedgerBalance(ledger + PlannedRows(r), a) - LedgerBalance(ledger, a))
    ensures a !in accounts ==> LedgerBalance(ledger + PlannedRows(r), a) == LedgerBalance(ledger, a)
  {
    var rows := PlannedRows(r);
    assert ledger + rows == (ledger + [rows[0]]) + [rows[1]];
    LedgerBalanceAppend(ledger, rows[0], a);
    LedgerBalanceAppend(ledger + [rows[0]], rows[1], a);
  }

  lemma DepositMoves(accounts: map<Uuid, Account>, ledger: seq<Row>, r: Request, a: Uuid)
    requires r.Deposit? && r.requested.coefficient >= 0 && r.account in accounts
    requires accounts[r.account].balance >= 0 && Fits(Money.Credited(accounts[r.account].balance, r.requested))
    ensures a in Moved(accounts, r) <==> a in accounts
    ensures a in accounts ==> (
      Moved(accounts, r)[a].balance - accounts[a].balance
      == LedgerBalance(ledger + PlannedRows(r), a) - LedgerBalance(ledger, a)
         + if r.account == a && Money.Drifts(accounts[a].balance, r.requested) then 1 else 0)
    ensures a !in accounts ==> LedgerBalance(ledger + PlannedRows(r), a) == LedgerBalance(ledger, a)
  {
    var row := PlannedRows(r)[0];
    assert PlannedRows(r) == [row];
    LedgerBalanceAppend(ledger, row, a);
    Money.CreditedExactly(accounts[r.account].balance, r.requested);
  }

  /** One committed request moves an account's balance by exactly the rows it inserts for that
      account, plus a cent when it is a drifting deposit. */
  lemma StepBalance(b: Bank, r: Request, a: Uuid)
    requires BankOk(b) && Accepts(b, r)
    ensures BalanceOf(Apply(b, r).0, a) - BalanceOf(b, a)
         == LedgerBalance(Apply(b, r).0.ledger, a) - LedgerBalance(b.ledger, a)
          + if r.Deposit? && r.account == a && DriftsIn(b, r) then 1 else 0
  {
    AcceptedMeans(b, r);
    match r
    case Transfer(_, _, _, _, _, _, _, _, _, _, _) => TransferMoves(b.accounts, b.ledger, r, a);
    case Deposit(_, _, d, _, _, _) => DepositMoves(b.accounts, b.ledger, r, a);
    case SetStatus(_, _) => assert b.ledger + [] == b.ledger;
    case Open(_, _, _) => assert b.ledger + [] == b.ledger;
  }

  /** In every state reached from the empty bank, each balance is the sum of the account's
      ledger rows plus one cent for each drifting deposit it received. */
  lemma {:induction false} BalanceIsLedgerPlusDrift(log: seq<Request>, a: Uuid)
    requires AllAccepted(EMPTY_BANK, log)
    ensures BalanceOf(Replay(EMPTY_BANK, log), a)
         == LedgerBalance(Replay(EMPTY_BANK, log).ledger, a) + DriftOn(EMPTY_BANK, log, a)
  {
    if |log| > 0 {
      var front, last := log[..|log| - 1], log[|log| - 1];
      BalanceIsLedgerPlusDrift(front, a);
      ReplayKeepsBankOk(EMPTY_BANK, front);
      StepBalance(Replay(EMPTY_BANK, front), last, a);
    }
  }

  /** The i-th request of the log is a deposit to a that drifts when its turn comes. */
  ghost predicate DriftsAt(log: seq<Request>, i: nat, a: Uuid)
    requires i < |log|
  {
    log[i].Deposit? && log[i].account == a && DriftsIn(Replay(EMPTY_BANK, log[..i]), log[i])
  }

  lemma {:induction false} DriftCounted(log: seq<Request>, a: Uuid)
    ensures DriftOn(EMPTY_BANK, log, a) == 0 <==> forall i :: 0 <= i < |log| ==> !DriftsAt(log, i, a)
  {
    if |log| > 0 {
      var n := |log| - 1;
      var front := log[..n];
      DriftCounted(front, a);
      forall i | 0 <= i < n
        ensures DriftsAt(front, i, a) == DriftsAt(log, i, a)
      {
        assert front[..i] == log[..i];
      }
      assert DriftOn(EMPTY_BANK, log, a) == DriftOn(EMPTY_BANK, front, a) + if DriftsAt(log, n, a) then 1 else 0;
    }
  }

  /** An account's balance agrees with its ledger rows exactly when none of its deposits
      drifted; each one that did left it a cent ahead. */
  lemma BalanceEqualsLedgerIff(log: seq<Request>, a: Uuid)
    requires AllAccepted(EMPTY_BANK, log)
    ensures BalanceOf(Replay(EMPTY_BANK, log), a) == LedgerBalance(Replay(EMPTY_BANK, log).ledger, a)
       <==> forall i :: 0 <= i < |log| ==> !DriftsAt(log, i, a)
  {
    BalanceIsLedgerPlusDrift(log, a);
    DriftCounted(log, a);
  }

  /** No deposit of the log carries more than twelve fractional digits. */
  predicate ShortDeposits(log: seq<Request>)
  {
    forall i :: 0 <= i < |log| && log[i].Deposit? ==> log[i].requested.exponent >= -12
  }

  lemma {:induction false} ShortDepositsNeverDrift(log: seq<Request>, a: Uuid)
    requires AllAccepted(EMPTY_BANK, log) && ShortDeposits(log)
    ensures DriftOn(EMPTY_BANK, log, a) == 0
  {
    if |log| > 0 {
      var front, last := log[..|log| - 1], log[|log| - 1];
      ShortDepositsNeverDrift(front, a);
      ReplayKeepsBankOk(EMPTY_BANK, front);
      assert log[|log| - 1] == last;
      if last.Deposit? {
        Money.ShortAmountsNeverDrift(Replay(EMPTY_BANK, front).accounts[last.account].balance, last.requested);
      }
    }
  }
}
