/** What each request answers and does, in the terms of its callers: the conditions, the errors and
    the rows written out, for a lone request and inside any run. */
module Answers {
  import opened Wrappers
  import opened Ledger
  import opened AtomicBank
  import opened Bookkeeping
  import opened Protocol
  import opened ProtocolInvariant
  import opened Serializability
  import opened Promise
  import Money

  // ---------------------------------------------------------------------------
  // Transfers
  // ---------------------------------------------------------------------------

  /** A transfer's answer: the first condition that fails names the error, and a transfer that meets
      them all commits its debit and its credit. */
  lemma TransferAnswers(b: Bank, r: Request)
    requires BankOk(b) && r.Transfer?
    ensures FindKey(b.ledger, r.key).Some? ==>
              Apply(b, r).1 == if FindKey(b.ledger, r.key + "_in").Some?
                               then Replayed(FindKey(b.ledger, r.key).value, FindKey(b.ledger, r.key + "_in").value)
                               else Refused(PartialTransfer)
    ensures FindKey(b.ledger, r.key).None? ==>
              Apply(b, r).1 ==
                if r.amount <= 0 then Refused(InsufficientFunds)
                else if r.currency != "MXN" && r.currency != "USD" then Refused(UnsupportedCurrency)
                else if r.source == r.target then Refused(AccountNotFound)
                else if r.source !in b.accounts then Refused(AccountNotFound)
                else if b.accounts[r.source].owner != r.user then Refused(Unauthorized)
                else if r.target !in b.accounts then Refused(AccountNotFound)
                else if b.accounts[r.source].status != Active then Refused(AccountFrozen)
                else if b.accounts[r.target].status != Active then Refused(AccountFrozen)
                else if b.accounts[r.source].currency != r.currency then Refused(UnsupportedCurrency)
                else if b.accounts[r.target].currency != r.currency then Refused(UnsupportedCurrency)
                else if b.accounts[r.source].balance < r.amount then Refused(InsufficientFunds)
                else if b.accounts[r.target].balance + r.amount >= 1_000_000_000_000_000_000 then Refused(DataError)
                else if |r.key| > 61 then Refused(DataError)
                else if r.description.Some? && |r.description.value| > 255 then Refused(DataError)
                else if FindKey(b.ledger, r.key + "_in").Some? then Refused(DuplicateKey)
                else Committed(
                  [Row(r.outId, r.source, TransferOut, r.amount, Some(r.target), Some(r.key), r.description, r.outAt),
                   Row(r.inId, r.target, TransferIn, r.amount, Some(r.source), Some(r.key + "_in"),
                       r.description, r.inAt)])
  {
    if r.source in b.accounts { assert 0 <= b.accounts[r.source].balance < 1_000_000_000_000_000_000; }
    if r.target in b.accounts { assert 0 <= b.accounts[r.target].balance; }
  }

  /** The transfers that must go through. */
  predicate MayTransfer(b: Bank, r: Request)
    requires r.Transfer?
  {
    && r.amount > 0 && (r.currency == "MXN" || r.currency == "USD")
    && r.source != r.target && r.source in b.accounts && r.target in b.accounts
    && b.accounts[r.source].owner == r.user
    && b.accounts[r.source].status == Active && b.accounts[r.target].status == Active
    && b.accounts[r.source].currency == r.currency && b.accounts[r.target].currency == r.currency
    && r.amount <= b.accounts[r.source].balance
    && b.accounts[r.target].balance + r.amount < 1_000_000_000_000_000_000
    && |r.key| <= 61 && (r.description.Some? ==> |r.description.value| <= 255)
    && FindKey(b.ledger, r.key).None? && FindKey(b.ledger, r.key + "_in").None?
  }

  /** A transfer commits if and only if it is one of them. */
  lemma TransferCommitsExactly(b: Bank, r: Request)
    requires BankOk(b) && r.Transfer?
    ensures Apply(b, r).1.Committed? <==> MayTransfer(b, r)
  {
    TransferAnswers(b, r);
  }

  /** What a committed transfer does: nothing else of any account, row or entry changes. */
  lemma TransferDoes(b: Bank, r: Request)
    requires BankOk(b) && r.Transfer? && MayTransfer(b, r)
    ensures var source, target := b.accounts[r.source], b.accounts[r.target];
            Apply(b, r).0 == Bank(
              b.accounts[r.source := Account(source.owner, source.currency, source.balance - r.amount, source.status)]
                        [r.target := Account(target.owner, target.currency, target.balance + r.amount, target.status)],
              b.ledger +
                [Row(r.outId, r.source, TransferOut, r.amount, Some(r.target), Some(r.key), r.description, r.outAt),
                 Row(r.inId, r.target, TransferIn, r.amount, Some(r.source), Some(r.key + "_in"),
                     r.description, r.inAt)],
              b.audit + [TransferCompleted(r.user, r.outId, r.inId, r.amount, r.currency, r.source, r.target)])
  {
    TransferCommitsExactly(b, r);
    AcceptedMeans(b, r);
  }

  // ---------------------------------------------------------------------------
  // Deposits, openings and status changes
  // ---------------------------------------------------------------------------

  lemma LedgerBelowCredited(balance: nat, d: Money.Decimal)
    requires d.coefficient > 0 && Money.Credited(balance, d) < Money.CENTS_LIMIT
    ensures 0 <= Money.LedgerCents(d) <= Money.Credited(balance, d)
  {
    Money.CreditedExactly(balance, d);
  }

  /** A deposit's answer. What the amounts are worth is said by `Money.WholeAmountsAreExact`,
      `Money.FractionsRoundToNearest` and `Money.CreditedExactly`. */
  lemma DepositAnswers(b: Bank, r: Request)
    requires BankOk(b) && r.Deposit? && SchemaAccepts(r)
    ensures Apply(b, r).1 ==
              if r.account !in b.accounts then Refused(AccountNotFound)
              else if b.accounts[r.account].owner != r.user then Refused(Unauthorized)
              else if Money.Credited(b.accounts[r.account].balance, r.requested) >= 1_000_000_000_000_000_000
              then Refused(DataError)
              else if r.description.Some? && |r.description.value| > 255 then Refused(DataError)
              else Committed([Row(r.rowId, r.account, DepositRow, Money.LedgerCents(r.requested), None, None,
                                  if r.description.None? || r.description.value == "" then Some("External deposit")
                                  else r.description, r.at)])
  {
    if r.account in b.accounts && Money.Credited(b.accounts[r.account].balance, r.requested) < Money.CENTS_LIMIT {
      LedgerBelowCredited(b.accounts[r.account].balance, r.requested);
    }
    assert |"External deposit"| == 16;
  }

  /** What a committed deposit does. */
  lemma DepositDoes(b: Bank, r: Request)
    requires BankOk(b) && r.Deposit? && Accepts(b, r)
    ensures var a, cents := b.accounts[r.account], Money.LedgerCents(r.requested);
            var drift := if Money.Drifts(a.balance, r.requested) then 1 else 0;
            && Apply(b, r).0.accounts
               == b.accounts[r.account := Account(a.owner, a.currency, a.balance + cents + drift, a.status)]
            && Apply(b, r).0.ledger == b.ledger + Apply(b, r).1.rows
            && Apply(b, r).0.audit == b.audit + [DepositCompleted(r.user, r.rowId, r.requested, r.account)]
  {
    AcceptedMeans(b, r);
    Money.CreditedExactly(b.accounts[r.account].balance, r.requested);
  }

  /** So a deposit of n pesos into one's own account adds 100 * n cents, and its row says so. */
  lemma PesosDeposited(b: Bank, r: Request, n: nat)
    requires BankOk(b) && r.Deposit? && r.requested == Money.Decimal(n, 0) && n > 0
    requires r.account in b.accounts && b.accounts[r.account].owner == r.user
    requires b.accounts[r.account].balance + 100 * n < 1_000_000_000_000_000_000
    requires r.description.Some? ==> |r.description.value| <= 255
    ensures Apply(b, r).1.Committed? && |Apply(b, r).1.rows| == 1 && Apply(b, r).1.rows[0].amount == 100 * n
    ensures r.account in Apply(b, r).0.accounts
    ensures Apply(b, r).0.accounts[r.account].balance == b.accounts[r.account].balance + 100 * n
  {
    Money.WholePesos(b.accounts[r.account].balance, n);
    DepositAnswers(b, r);
    AcceptedMeans(b, r);
  }

  /** An account opens in a supported currency, with nothing on it. */
  lemma OpenAnswers(b: Bank, r: Request)
    requires r.Open?
    ensures Apply(b, r).1 ==
              if r.currency != "MXN" && r.currency != "USD" then Refused(UnsupportedCurrency)
              else if r.account in b.accounts then Refused(DuplicateKey) else Committed([])
    ensures Apply(b, r).1.Committed? ==>
              Apply(b, r).0 == Bank(b.accounts[r.account := Account(r.user, r.currency, 0, Active)], b.ledger,
                                    b.audit + [AccountCreated(r.user, r.account, r.currency)])
  {
    assert b.ledger + [] == b.ledger;
  }

  /** A status change changes the status of an existing account. */
  lemma StatusAnswers(b: Bank, r: Request)
    requires r.SetStatus?
    ensures Apply(b, r).1 == if r.account in b.accounts then Committed([]) else Refused(AccountNotFound)
    ensures r.account in b.accounts ==>
              var a := b.accounts[r.account];
              Apply(b, r).0 == Bank(b.accounts[r.account := Account(a.owner, a.currency, a.balance, r.status)],
                                    b.ledger, b.audit)
  {
    assert b.ledger + [] == b.ledger && b.audit + [] == b.audit;
  }

  // ---------------------------------------------------------------------------
  // The same in runs
  // ---------------------------------------------------------------------------

  /** From any reachable state where nobody holds anything, a transfer carried out statement by
      statement commits if and only if it may, and then moves just its amount. */
  lemma TransferRuns(history: seq<Move>, r: Request) returns (moves: seq<Move>)
    requires Idle(Reached(history)) && r.Transfer?
    ensures history <= moves && |Reached(moves).txns| == |Reached(history).txns| + 1
    ensures var w, s := Reached(history), Reached(moves);
            && s.txns[|w.txns|].req == r
            && (HasCommitted(s, |w.txns|) <==> MayTransfer(w.bank, r))
            && (MayTransfer(w.bank, r) ==>
                  && r.source in s.bank.accounts && r.target in s.bank.accounts
                  && s.bank.accounts[r.source].balance == w.bank.accounts[r.source].balance - r.amount
                  && s.bank.accounts[r.target].balance == w.bank.accounts[r.target].balance + r.amount)
            && (!MayTransfer(w.bank, r) ==> s.bank == w.bank)
  {
    ReachedInv(history);
    var more := AloneIsAtomic(Reached(history), r);
    RunConcat(Quiet(EMPTY_BANK), history, more);
    moves := history + more;
    TransferCommitsExactly(Reached(history).bank, r);
    OnlyCommitsWrite(Reached(history).bank, r);
    if MayTransfer(Reached(history).bank, r) { TransferDoes(Reached(history).bank, r); }
  }

  /** What each error says of the tables. */
  predicate Reason(b: Bank, r: Request, e: Error)
  {
    match e
    case InsufficientFunds =>
      r.Transfer? && (r.amount <= 0 || (r.source in b.accounts && b.accounts[r.source].balance < r.amount))
    case UnsupportedCurrency =>
      && (r.Transfer? || r.Open?)
      && ((r.currency != "MXN" && r.currency != "USD")
          || (r.Transfer? && r.source in b.accounts && b.accounts[r.source].currency != r.currency)
          || (r.Transfer? && r.target in b.accounts && b.accounts[r.target].currency != r.currency))
    case AccountNotFound =>
      if r.Transfer? then r.source == r.target || r.source !in b.accounts || r.target !in b.accounts
      else r.account !in b.accounts
    case Unauthorized =>
      || (r.Transfer? && r.source in b.accounts && b.accounts[r.source].owner != r.user)
      || (r.Deposit? && r.account in b.accounts && b.accounts[r.account].owner != r.user)
    case AccountFrozen =>
      r.Transfer? && ((r.source in b.accounts && b.accounts[r.source].status != Active)
                      || (r.target in b.accounts && b.accounts[r.target].status != Active))
    case PartialTransfer =>
      r.Transfer? && FindKey(b.ledger, r.key).Some? && FindKey(b.ledger, r.key + "_in").None?
    case DataError =>
      || (r.Transfer? && (|r.key| > 61
                          || (r.target in b.accounts
                              && b.accounts[r.target].balance + r.amount >= 1_000_000_000_000_000_000)))
      || (r.Deposit? && r.account in b.accounts
          && Money.Credited(b.accounts[r.account].balance, r.requested) >= 1_000_000_000_000_000_000)
      || ((r.Transfer? || r.Deposit?) && r.description.Some? && |r.description.value| > 255)
    case DuplicateKey =>
      || (r.Transfer? && (FindKey(b.ledger, r.key).Some? || FindKey(b.ledger, r.key + "_in").Some?))
      || (r.Open? && r.account in b.accounts)
    case Cancelled => false
  }

  lemma RulesHaveReasons(b: Bank, r: Request)
    requires BankOk(b) && Loaded(b.accounts, r) && SchemaAccepts(r)
    ensures Refusal(b.accounts, r).Some? && (r.Transfer? ==> r.amount > 0) ==>
              Reason(b, r, Refusal(b.accounts, r).value)
  {
    if r.Transfer? {
      assert Fits(b.accounts[r.source].balance) && Fits(b.accounts[r.target].balance);
    } else if r.Deposit? {
      assert Fits(b.accounts[r.account].balance);
      CreditedIsNatural(b.accounts[r.account].balance, r.requested);
    }
  }

  lemma CreditedIsNatural(balance: nat, d: Money.Decimal)
    requires d.coefficient > 0
    ensures Money.Credited(balance, d) >= 0
  {
  }

  lemma RowsHaveReasons(b: Bank, t: Txn, n: nat)
    requires BankOk(b) && TxnOk(b, t) && t.phase == Insert(n) && n < |PlannedRows(t.req)|
    requires RowRefusal(b.ledger, PlannedRows(t.req)[n]).Some?
    ensures Reason(b, t.req, RowRefusal(b.ledger, PlannedRows(t.req)[n]).value)
  {
    if t.req.Transfer? {
      assert Fits(b.accounts[t.req.source].balance);
    } else {
      LedgerBelowCredited(b.accounts[t.req.account].balance, t.req.requested);
      assert |"External deposit"| == 16;
    }
  }

  /** The lock statement found fewer rows than it asked for. */
  predicate FoundTooFew(t: Txn)
  {
    t.phase.Locking? && |t.phase.found| < |Targets(t.req)|
  }

  lemma ChecksHaveReasons(b: Bank, t: Txn)
    requires BankOk(b) && TxnOk(b, t) && t.phase.CheckAndWrite?
    requires NextCheck(b, t).Stop?
    ensures NextCheck(b, t).outcome.Refused? && Reason(b, t.req, NextCheck(b, t).outcome.error)
  {
    FreshAgrees(b.accounts, t.cache, t.req);
    SameWhereItWorks(t.cache, b.accounts, t.req);
    RulesHaveReasons(b, t.req);
  }

  /** A refusal has its reason in the tables it is raised on; or, at the end of a lock statement, in
      those the statement's snapshot was taken of. */
  predicate Reasoned(b: Bank, t: Txn, e: Effect)
  {
    && (e.Stop? && e.outcome.Refused? ==>
          Reason(b, t.req, e.outcome.error) || (FoundTooFew(t) && e.outcome.error == AccountNotFound))
    && (FoundTooFew(AfterEffect(t, e)) ==> FoundTooFew(t) || Reason(b, t.req, AccountNotFound))
  }

  lemma LookupReasoned(b: Bank, t: Txn)
    requires t.req.Transfer?
    ensures Reasoned(b, t, NextLookup(b, t)) && Reasoned(b, t, NextReadSource(b, t))
  {
  }

  lemma CompanionReasoned(b: Bank, t: Txn)
    requires TxnOk(b, t) && t.phase.LookupCompanion?
    ensures Reasoned(b, t, NextCompanion(b, t))
  {
  }

  lemma SelectReasoned(b: Bank, t: Txn)
    requires TxnOk(b, t) && t.phase.SelectForUpdate?
    ensures Reasoned(b, t, NextSelect(b, t))
  {
    ExistingAll(b.accounts, t.req);
  }

  lemma LockReasoned(b: Bank, locks: map<Uuid, Sid>, i: Sid, t: Txn)
    requires TxnOk(b, t) && t.phase.Locking?
    ensures Reasoned(b, t, NextLock(b, locks, i, t))
  {
  }

  lemma CheckReasoned(b: Bank, t: Txn)
    requires BankOk(b) && TxnOk(b, t) && t.phase.CheckAndWrite?
    ensures Reasoned(b, t, NextCheck(b, t))
  {
    if NextCheck(b, t).Stop? { ChecksHaveReasons(b, t); }
  }

  lemma InsertReasoned(b: Bank, locks: map<string, Sid>, i: Sid, t: Txn)
    requires BankOk(b) && TxnOk(b, t) && t.phase.Insert?
    ensures Reasoned(b, t, NextInsert(b, locks, i, t))
  {
    var n, rows := t.phase.next, PlannedRows(t.req);
    if n < |rows| && RowRefusal(b.ledger, rows[n]).Some? { RowsHaveReasons(b, t, n); }
  }

  lemma RefusalsHaveReasons(b: Bank, rowLocks: map<Uuid, Sid>, keyLocks: map<string, Sid>, i: Sid, t: Txn)
    requires BankOk(b) && TxnOk(b, t) && Unfinished(t)
    ensures Reasoned(b, t, Next(b, rowLocks, keyLocks, i, t))
  {
    match t.phase
    case Lookup => LookupReasoned(b, t);
    case LookupCompanion(_) => CompanionReasoned(b, t);
    case ReadSource => LookupReasoned(b, t);
    case SelectForUpdate => SelectReasoned(b, t);
    case Locking(_, _) => LockReasoned(b, rowLocks, i, t);
    case CheckAndWrite => CheckReasoned(b, t);
    case Insert(_) => InsertReasoned(b, keyLocks, i, t);
    case WriteAudit =>
    case Ready =>
  }

  /** At some moment of the run since transaction i arrived, error e had its reason in the tables. */
  ghost predicate WasTrue(moves: seq<Move>, i: Sid, r: Request, e: Error)
  {
    exists n :: 0 <= n <= |moves| && i < |Reached(moves[..n]).txns| && Reason(Reached(moves[..n]).bank, r, e)
  }

  ghost predicate Justified(moves: seq<Move>, i: Sid, t: Txn)
  {
    && (FoundTooFew(t) ==> WasTrue(moves, i, t.req, AccountNotFound))
    && (t.phase.Finished? && t.phase.outcome.Refused? && t.phase.outcome.error != Cancelled ==>
          WasTrue(moves, i, t.req, t.phase.outcome.error))
  }

  lemma WasTrueStays(moves: seq<Move>, m: Move, i: Sid, r: Request, e: Error)
    requires WasTrue(moves, i, r, e)
    ensures WasTrue(moves + [m], i, r, e)
  {
    var n :| 0 <= n <= |moves| && i < |Reached(moves[..n]).txns| && Reason(Reached(moves[..n]).bank, r, e);
    assert (moves + [m])[..n] == moves[..n];
  }

  lemma TrueNow(moves: seq<Move>, m: Move, i: Sid, r: Request, e: Error)
    requires i < |Reached(moves).txns| && Reason(Reached(moves).bank, r, e)
    ensures WasTrue(moves + [m], i, r, e)
  {
    assert (moves + [m])[..|moves|] == moves;
  }

  lemma NextIsJustified(moves: seq<Move>, i: Sid)
    requires Live(Reached(moves), i) && Justified(moves, i, Reached(moves).txns[i])
    ensures var t := Reached(moves).txns[i];
            Justified(moves + [Advance(i)], i, AfterEffect(t, EffectOf(Reached(moves), i)))
  {
    var w := Reached(moves);
    var t := w.txns[i];
    var e := EffectOf(w, i);
    ReachedInv(moves);
    EffectInOrder(w, i);
    assert TxnOk(w.bank, t);
    RefusalsHaveReasons(w.bank, w.rowLocks, w.keyLocks, i, t);
    if FoundTooFew(t) { WasTrueStays(moves, Advance(i), i, t.req, AccountNotFound); }
    if Reason(w.bank, t.req, AccountNotFound) { TrueNow(moves, Advance(i), i, t.req, AccountNotFound); }
    if e.Stop? && e.outcome.Refused? && Reason(w.bank, t.req, e.outcome.error) {
      TrueNow(moves, Advance(i), i, t.req, e.outcome.error);
    }
  }

  /** No refusal without a reason: in every run, a request that was refused and not cancelled was
      refused with an error whose condition held of the committed tables at some moment while the
      request was in flight. */
  lemma {:induction false} RefusalsAreJustified(moves: seq<Move>, i: Sid)
    requires i < |Reached(moves).txns|
    ensures Justified(moves, i, Reached(moves).txns[i])
  {
    if |moves| > 0 {
      var front, m := moves[..|moves| - 1], moves[|moves| - 1];
      var w := Reached(front);
      assert moves == front + [m];
      if i < |w.txns| {
        RefusalsAreJustified(front, i);
        OwnMovesOnly(w, m, i);
        if m == Advance(i) && Live(w, i) {
          NextIsJustified(front, i);
        } else {
          JustifiedStays(front, m, i, w.txns[i]);
        }
      }
    }
  }

  lemma JustifiedStays(moves: seq<Move>, m: Move, i: Sid, t: Txn)
    requires Justified(moves, i, t)
    ensures Justified(moves + [m], i, t)
  {
    if FoundTooFew(t) { WasTrueStays(moves, m, i, t.req, AccountNotFound); }
    if t.phase.Finished? && t.phase.outcome.Refused? && t.phase.outcome.error != Cancelled {
      WasTrueStays(moves, m, i, t.req, t.phase.outcome.error);
    }
  }

  // ---------------------------------------------------------------------------
  // The audit log
  // ---------------------------------------------------------------------------

  /** The entry of a committed request. */
  predicate Audited(audit: seq<Audit>, r: Request)
  {
    match r
    case Transfer(s, t, amount, c, _, user, outId, inId, _, _, _) =>
      TransferCompleted(user, outId, inId, amount, c, s, t) in audit
    case Deposit(a, user, d, id, _, _) => DepositCompleted(user, id, d, a) in audit
    case SetStatus(_, _) => true
    case Open(a, user, c) => AccountCreated(user, a, c) in audit
  }

  lemma {:induction false} LogIsAudited(log: seq<Request>, p: nat)
    requires AllAccepted(EMPTY_BANK, log) && p < |log|
    ensures Audited(Replay(EMPTY_BANK, log).audit, log[p])
  {
    var front, last := log[..|log| - 1], log[|log| - 1];
    AcceptedMeans(Replay(EMPTY_BANK, front), last);
    if p < |front| {
      LogIsAudited(front, p);
      assert front[p] == log[p];
    } else if !last.SetStatus? {
      assert PlannedAudits(last)[0] in PlannedAudits(last);
    }
  }

  /** Every committed request has its audit entry, with its own user, amount, currency, accounts and
      row ids. */
  lemma EveryCommitIsAudited(moves: seq<Move>, i: Sid)
    requires HasCommitted(Reached(moves), i)
    ensures Audited(Reached(moves).bank.audit, Reached(moves).txns[i].req)
  {
    var p := CommittedWasAccepted(EMPTY_BANK, moves, i);
    ReachedIsSerial(moves);
    LogIsAudited(SerialLog(moves), p);
  }
}
