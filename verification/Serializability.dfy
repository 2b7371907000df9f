/** Whole runs: every interleaving is a serial execution in commit order, and what that says
    about balances, money, pairs of rows and idempotency keys. */
module Serializability {
  import opened Ledger
  import opened AtomicBank
  import opened Bookkeeping
  import opened Conservation
  import opened Protocol
  import opened ProtocolInvariant
  import Money

  lemma QuietInv(b: Bank)
    requires BankOk(b)
    ensures Inv(Quiet(b))
  {
  }

  lemma {:induction false} RunKeepsInv(w: World, moves: seq<Move>)
    requires Inv(w)
    ensures Inv(Run(w, moves))
  {
    if |moves| > 0 {
      RunKeepsInv(w, moves[..|moves| - 1]);
      StepKeepsInv(Run(w, moves[..|moves| - 1]), moves[|moves| - 1]);
    }
  }

  /** Serializability: whatever the interleaving, the committed tables are those of running the
      committed requests atomically, one at a time, in commit order. */
  lemma {:induction false} Serializable(w: World, moves: seq<Move>)
    requires Inv(w)
    ensures AllAccepted(w.bank, CommitLog(w, moves))
    ensures Run(w, moves).bank == Replay(w.bank, CommitLog(w, moves))
  {
    if |moves| > 0 {
      var front, last := moves[..|moves| - 1], moves[|moves| - 1];
      var before := Run(w, front);
      Serializable(w, front);
      RunKeepsInv(w, front);
      StepRefines(before, last);
      if Commits(before, last) {
        ReplayAppend(w.bank, CommitLog(w, front), before.txns[last.i].req);
      } else {
        assert CommitLog(w, moves) == CommitLog(w, front);
      }
    }
  }

  /** The system after a run from the empty bank: the reachable states. */
  function Reached(moves: seq<Move>): World
  {
    Run(Quiet(EMPTY_BANK), moves)
  }

  /** The requests such a run committed, in commit order. */
  function SerialLog(moves: seq<Move>): seq<Request>
  {
    CommitLog(Quiet(EMPTY_BANK), moves)
  }

  /** Every reachable state is in order. */
  lemma ReachedInv(moves: seq<Move>)
    ensures Inv(Reached(moves))
  {
    QuietInv(EMPTY_BANK);
    RunKeepsInv(Quiet(EMPTY_BANK), moves);
  }

  lemma ReachedIsSerial(moves: seq<Move>)
    ensures AllAccepted(EMPTY_BANK, SerialLog(moves))
    ensures Reached(moves).bank == Replay(EMPTY_BANK, SerialLog(moves))
  {
    QuietInv(EMPTY_BANK);
    Serializable(Quiet(EMPTY_BANK), moves);
  }

  /** In every committed state of every run from the empty bank: no balance is negative or too
      large, each account's balance is its ledger rows plus a cent per drifting deposit, the
      balances in each currency add up to the deposits in it plus the drift, and debits,
      credits and audit entries correspond one to one. */
  lemma EveryRunKeepsTheBooks(moves: seq<Move>, a: Uuid, c: string)
    ensures var bank, log := Reached(moves).bank, SerialLog(moves);
            && BalancesFit(bank.accounts)
            && BalanceOf(bank, a) == LedgerBalance(bank.ledger, a) + DriftOn(EMPTY_BANK, log, a)
            && Total(bank.accounts, c) == Deposited(bank.ledger, bank.accounts, c) + DriftIn(EMPTY_BANK, log, c)
            && OneToOne(bank)
            && KeysUnique(bank.ledger)
  {
    ReachedIsSerial(moves);
    ReplayKeepsBankOk(EMPTY_BANK, SerialLog(moves));
    BalanceIsLedgerPlusDrift(SerialLog(moves), a);
    MoneyIsConserved(SerialLog(moves), c);
    DoubleEntry(SerialLog(moves));
  }

  ghost predicate Supported(accounts: map<Uuid, Account>)
  {
    forall x :: x in accounts ==> accounts[x].currency in SUPPORTED_CURRENCIES
  }

  lemma MovedSupported(accounts: map<Uuid, Account>, r: Request)
    requires Supported(accounts) && Loaded(accounts, r) && (r.Open? ==> r.currency in SUPPORTED_CURRENCIES)
    ensures Supported(Moved(accounts, r))
  {
  }

  lemma StepKeepsAccounts(w: World, m: Move)
    requires Inv(w)
    ensures Extends(w.bank.accounts, Step(w, m).bank.accounts)
    ensures Supported(w.bank.accounts) ==> Supported(Step(w, m).bank.accounts)
  {
    StepRefines(w, m);
    if Commits(w, m) {
      var r := w.txns[m.i].req;
      AcceptedMeans(w.bank, r);
      MovedExtends(w.bank.accounts, r);
      if Supported(w.bank.accounts) { MovedSupported(w.bank.accounts, r); }
    }
  }

  /** Along every run accounts are never removed, nor change owner or currency. */
  lemma {:induction false} AccountsEndure(w: World, moves: seq<Move>)
    requires Inv(w)
    ensures Extends(w.bank.accounts, Run(w, moves).bank.accounts)
    ensures Supported(w.bank.accounts) ==> Supported(Run(w, moves).bank.accounts)
  {
    if |moves| > 0 {
      var front := moves[..|moves| - 1];
      AccountsEndure(w, front);
      RunKeepsInv(w, front);
      StepKeepsAccounts(Run(w, front), moves[|moves| - 1]);
    }
  }

  /** In every reachable state every account is in a supported currency. */
  lemma OnlySupportedCurrencies(moves: seq<Move>)
    ensures Supported(Reached(moves).bank.accounts)
  {
    QuietInv(EMPTY_BANK);
    AccountsEndure(Quiet(EMPTY_BANK), moves);
  }

  // ---------------------------------------------------------------------------
  // Locks and fresh copies
  // ---------------------------------------------------------------------------

  /** The balances have been written to the session's copies. */
  predicate HasWritten(t: Txn)
  {
    t.phase.Insert? || t.phase.WriteAudit? || t.phase.Ready?
  }

  lemma ListedIsExclusive(w: World, i: Sid, j: Sid)
    requires Lists(w.rowLocks, HeldBy(w.txns)) && Lists(w.keyLocks, ReservedBy(w.txns))
    requires i < |w.txns| && j < |w.txns| && i != j
    ensures Held(w.txns[i]) !! Held(w.txns[j]) && Reserved(w.txns[i]) !! Reserved(w.txns[j])
    ensures forall x :: x in Held(w.txns[i]) ==> x in w.rowLocks && w.rowLocks[x] == i
  {
    NeverShared(w.rowLocks, HeldBy(w.txns), i, j);
    NeverShared(w.keyLocks, ReservedBy(w.txns), i, j);
  }

  /** Nothing is ever held twice: in no reachable state have two transactions locked the same row
      or inserted the same key; and who works on a locked row owns its lock. */
  lemma LocksAreExclusive(moves: seq<Move>, i: Sid, j: Sid)
    requires i < |Reached(moves).txns| && j < |Reached(moves).txns| && i != j
    ensures Held(Reached(moves).txns[i]) !! Held(Reached(moves).txns[j])
    ensures Reserved(Reached(moves).txns[i]) !! Reserved(Reached(moves).txns[j])
    ensures forall x :: x in Held(Reached(moves).txns[i]) ==>
              x in Reached(moves).rowLocks && Reached(moves).rowLocks[x] == i
  {
    ReachedInv(moves);
    ListedIsExclusive(Reached(moves), i, j);
  }

  /** In every reachable state, from lock grant until it writes, a session's copy of a locked row
      is the committed row, whatever an earlier unlocked read had cached. */
  lemma FreshUnderLock(moves: seq<Move>, i: Sid, x: Uuid)
    requires i < |Reached(moves).txns|
    requires x in Held(Reached(moves).txns[i]) && !HasWritten(Reached(moves).txns[i])
    ensures var w := Reached(moves);
            x in w.bank.accounts && x in w.txns[i].cache && w.txns[i].cache[x] == w.bank.accounts[x]
  {
    var w := Reached(moves);
    ReachedInv(moves);
    assert TxnOk(w.bank, w.txns[i]);
    assert Fresh(w.bank.accounts, w.txns[i].cache, x);
  }

  /** From the write until it commits, the copy is the committed row moved by this request
      alone: no other session's update is lost under the absolute balance it will store. */
  lemma WrittenOverFresh(moves: seq<Move>, i: Sid)
    requires i < |Reached(moves).txns| && HasWritten(Reached(moves).txns[i])
    ensures var b, t := Reached(moves).bank, Reached(moves).txns[i];
            && Loaded(b.accounts, t.req) && Loaded(t.cache, t.req)
            && (t.req.Transfer? ==>
                  && t.cache[t.req.source].balance == b.accounts[t.req.source].balance - t.req.amount
                  && t.cache[t.req.target].balance == b.accounts[t.req.target].balance + t.req.amount)
            && (t.req.Deposit? ==>
                  t.cache[t.req.account].balance == Money.Credited(b.accounts[t.req.account].balance, t.req.requested))
  {
    var w := Reached(moves);
    ReachedInv(moves);
    assert TxnOk(w.bank, w.txns[i]);
  }

  lemma ReadyTransfer(w: World, i: Sid)
    requires Inv(w) && Commits(w, Advance(i)) && w.txns[i].req.Transfer?
    ensures var r, accounts := w.txns[i].req, w.bank.accounts;
            && r.source in accounts && r.target in accounts && r.source != r.target && r.amount > 0
            && accounts[r.source].owner == r.user
            && accounts[r.source].status == Active && accounts[r.target].status == Active
            && accounts[r.source].currency == r.currency == accounts[r.target].currency
            && r.amount <= accounts[r.source].balance
            && Step(w, Advance(i)).bank.accounts == Moved(accounts, r)
  {
    StepRefines(w, Advance(i));
    AcceptedMeans(w.bank, w.txns[i].req);
  }

  /** Whenever a transfer commits, in any run, what was checked still holds of the committed rows:
      the source belongs to the user and covers the amount, and both accounts are active and of
      the requested currency; and exactly the amount moves. */
  lemma ChecksHoldAtCommit(moves: seq<Move>, i: Sid)
    requires Commits(Reached(moves), Advance(i)) && Reached(moves).txns[i].req.Transfer?
    ensures var w := Reached(moves);
            var r, accounts, after := w.txns[i].req, w.bank.accounts, Step(w, Advance(i)).bank.accounts;
            && r.source in accounts && r.target in accounts && r.source != r.target && r.amount > 0
            && accounts[r.source].owner == r.user
            && accounts[r.source].status == Active && accounts[r.target].status == Active
            && accounts[r.source].currency == r.currency == accounts[r.target].currency
            && r.amount <= accounts[r.source].balance
            && after == accounts[r.source := accounts[r.source].(balance := accounts[r.source].balance - r.amount)]
                                [r.target := accounts[r.target].(balance := accounts[r.target].balance + r.amount)]
  {
    ReachedInv(moves);
    ReadyTransfer(Reached(moves), i);
  }

  /** Whenever a deposit commits, the account belongs to the user, and its balance becomes the one
      credited to the committed balance. */
  lemma DepositHoldsAtCommit(moves: seq<Move>, i: Sid)
    requires Commits(Reached(moves), Advance(i)) && Reached(moves).txns[i].req.Deposit?
    ensures var w := Reached(moves);
            var r, accounts, after := w.txns[i].req, w.bank.accounts, Step(w, Advance(i)).bank.accounts;
            && r.account in accounts && accounts[r.account].owner == r.user && r.requested.coefficient > 0
            && after == accounts[r.account := accounts[r.account].(
                          balance := Money.Credited(accounts[r.account].balance, r.requested))]
  {
    ReachedInv(moves);
    StepRefines(Reached(moves), Advance(i));
    AcceptedMeans(Reached(moves).bank, Reached(moves).txns[i].req);
  }

  // ---------------------------------------------------------------------------
  // Idempotency keys
  // ---------------------------------------------------------------------------

  predicate Succeeded(o: Outcome)
  {
    !o.Refused?
  }

  /** The debit and credit a successful transfer responds with. */
  function Pair(o: Outcome): (p: seq<Row>)
  {
    match o
    case Committed(rows) => rows
    case Replayed(out, companion) => [out, companion]
    case Refused(_) => []
  }

  /** The transfer was answered with success. */
  predicate Answered(w: World, i: Sid)
  {
    i < |w.txns| && w.txns[i].req.Transfer? && w.txns[i].phase.Finished? && Succeeded(w.txns[i].phase.outcome)
  }

  /** Whatever raced with what, all successful responses under one key return the same pair,
      which is in the ledger; and the pair is a debit with its mirrored credit exactly when the
      first row is a debit, which it is unless the key ends in the suffix. */
  lemma SameKeySamePair(moves: seq<Move>, i: Sid, j: Sid)
    requires Answered(Reached(moves), i) && Answered(Reached(moves), j)
    requires Reached(moves).txns[i].req.key == Reached(moves).txns[j].req.key
    ensures Pair(Reached(moves).txns[i].phase.outcome) == Pair(Reached(moves).txns[j].phase.outcome)
    ensures var w := Reached(moves);
            var p := Pair(w.txns[i].phase.outcome);
            && |p| == 2 && p[0] in w.bank.ledger && p[1] in w.bank.ledger
            && (Mirrors(p[0], p[1]) <==> p[0].kind == TransferOut)
            && (!EndsInSuffix(w.txns[i].req.key) ==> Mirrors(p[0], p[1]))
  {
    var w := Reached(moves);
    ReachedInv(moves);
    assert TxnOk(w.bank, w.txns[i]) && TxnOk(w.bank, w.txns[j]);
    ReplayIsGenuine(w.bank, w.txns[i].req.key);
  }

  /** The "partial transfer" error is only ever raised when the row under the key is the credit
      of another transfer; so never for a key that does not end in the suffix. */
  lemma PartialTransferOnlyOnCredits(moves: seq<Move>, i: Sid)
    requires i < |Reached(moves).txns| && Reached(moves).txns[i].phase == Finished(Refused(PartialTransfer))
    ensures var w := Reached(moves);
            && w.txns[i].req.Transfer? && EndsInSuffix(w.txns[i].req.key)
            && FindKey(w.bank.ledger, w.txns[i].req.key).Some?
            && FindKey(w.bank.ledger, w.txns[i].req.key).value.kind == TransferIn
  {
    var w := Reached(moves);
    ReachedInv(moves);
    assert TxnOk(w.bank, w.txns[i]);
    ReplayIsGenuine(w.bank, w.txns[i].req.key);
  }

  /** And a lone transfer meets that error exactly when the row under its key is a credit whose
      own companion key is free: a client key may collide with a companion key. */
  lemma PartialTransferExactly(b: Bank, r: Request)
    requires BankOk(b) && r.Transfer?
    ensures Apply(b, r).1 == Refused(PartialTransfer) <==>
              && FindKey(b.ledger, r.key).Some? && FindKey(b.ledger, r.key).value.kind == TransferIn
              && FindKey(b.ledger, Companion(r.key)).None?
  {
    if FindKey(b.ledger, r.key).Some? {
      ReplayIsGenuine(b, r.key);
      assert Balanced(b.ledger, FindKey(b.ledger, r.key).value);
    }
  }

  /** The commit order of a run, by transaction. */
  function CommitOrder(w: World, moves: seq<Move>): seq<Sid>
  {
    if |moves| == 0 then []
    else
      var front, last := moves[..|moves| - 1], moves[|moves| - 1];
      CommitOrder(w, front) + if Commits(Run(w, front), last) then [last.i] else []
  }

  predicate HasCommitted(w: World, i: Sid)
  {
    i < |w.txns| && w.txns[i].phase.Finished? && w.txns[i].phase.outcome.Committed?
  }

  /** The commit order lists exactly the committed transactions, each once, and the commit log
      is their requests. */
  ghost predicate OrderOk(w: World, order: seq<Sid>, log: seq<Request>)
  {
    && |order| == |log|
    && (forall p :: 0 <= p < |order| ==> HasCommitted(w, order[p]) && w.txns[order[p]].req == log[p])
    && (forall p, q :: 0 <= p < q < |order| ==> order[p] != order[q])
    && (forall i: Sid :: HasCommitted(w, i) ==> i in order)
  }

  /** An effect touches only its own transaction, and marks it committed only by publishing. */
  lemma PerformMarks(w: World, i: Sid, e: Effect)
    requires Live(w, i) && EffectOk(w.bank, w.txns[i], e)
    ensures |Perform(w, i, e).txns| == |w.txns|
    ensures forall j :: 0 <= j < |w.txns| && j != i ==> Perform(w, i, e).txns[j] == w.txns[j]
    ensures HasCommitted(Perform(w, i, e), i) <==> e.Publish?
    ensures Perform(w, i, e).txns[i].req == w.txns[i].req
  {
  }

  /** So it commits at most its own transaction, and leaves committed ones as they are. */
  lemma PerformCommits(w: World, j: Sid, e: Effect, i: Sid)
    requires Live(w, j) && EffectOk(w.bank, w.txns[j], e)
    ensures HasCommitted(w, i) ==> HasCommitted(Perform(w, j, e), i) && Perform(w, j, e).txns[i] == w.txns[i]
    ensures HasCommitted(Perform(w, j, e), i) && !HasCommitted(w, i) ==> e.Publish? && i == j
    ensures e.Publish? ==> HasCommitted(Perform(w, j, e), j) && Perform(w, j, e).txns[j].req == w.txns[j].req
  {
    PerformMarks(w, j, e);
  }

  lemma AdvanceCommits(w: World, j: Sid, i: Sid)
    requires Live(w, j) && EffectOk(w.bank, w.txns[j], EffectOf(w, j))
    ensures var after := Step(w, Advance(j));
            && (HasCommitted(w, i) ==> HasCommitted(after, i) && after.txns[i] == w.txns[i])
            && (HasCommitted(after, i) && !HasCommitted(w, i) ==> Commits(w, Advance(j)) && i == j)
            && (Commits(w, Advance(j)) ==> HasCommitted(after, j) && after.txns[j].req == w.txns[j].req)
  {
    PerformCommits(w, j, EffectOf(w, j), i);
    assert Step(w, Advance(j)) == Perform(w, j, EffectOf(w, j));
  }

  ghost predicate MoveInOrder(w: World, m: Move)
  {
    m.Advance? && Live(w, m.i) ==> EffectOk(w.bank, w.txns[m.i], EffectOf(w, m.i))
  }

  lemma MovesAreInOrder(w: World, m: Move)
    requires Inv(w)
    ensures MoveInOrder(w, m)
  {
    if m.Advance? && Live(w, m.i) { EffectInOrder(w, m.i); }
  }

  /** A step commits at most the transaction it advances; finished ones never change. */
  lemma StepCommits(w: World, m: Move, i: Sid)
    requires MoveInOrder(w, m)
    ensures HasCommitted(w, i) ==> HasCommitted(Step(w, m), i) && Step(w, m).txns[i] == w.txns[i]
    ensures HasCommitted(Step(w, m), i) && !HasCommitted(w, i) ==> Commits(w, m) && m.i == i
    ensures Commits(w, m) ==>
              && HasCommitted(Step(w, m), m.i) && !HasCommitted(w, m.i)
              && Step(w, m).txns[m.i].req == w.txns[m.i].req
  {
    if m.Advance? && Live(w, m.i) {
      AdvanceCommits(w, m.i, i);
    } else if m.Cancel? && Live(w, m.i) {
      PerformCommits(w, m.i, Fail(Cancelled), i);
    }
  }

  lemma OrderExtends(w: World, m: Move, order: seq<Sid>, log: seq<Request>)
    requires MoveInOrder(w, m) && OrderOk(w, order, log)
    ensures OrderOk(Step(w, m), order + (if Commits(w, m) then [m.i] else []),
                    log + (if Commits(w, m) then [w.txns[m.i].req] else []))
  {
    forall i: Sid
      ensures HasCommitted(w, i) ==> HasCommitted(Step(w, m), i) && Step(w, m).txns[i] == w.txns[i]
      ensures HasCommitted(Step(w, m), i) && !HasCommitted(w, i) ==> Commits(w, m) && m.i == i
    {
      StepCommits(w, m, i);
    }
    if Commits(w, m) {
      StepCommits(w, m, m.i);
    }
  }

  lemma {:induction false} OrderMatches(b: Bank, moves: seq<Move>)
    requires BankOk(b)
    ensures OrderOk(Run(Quiet(b), moves), CommitOrder(Quiet(b), moves), CommitLog(Quiet(b), moves))
  {
    if |moves| > 0 {
      var front, last := moves[..|moves| - 1], moves[|moves| - 1];
      OrderMatches(b, front);
      QuietInv(b);
      RunKeepsInv(Quiet(b), front);
      MovesAreInOrder(Run(Quiet(b), front), last);
      OrderExtends(Run(Quiet(b), front), last, CommitOrder(Quiet(b), front), CommitLog(Quiet(b), front));
    }
  }

  /** Exactly once: over all interleavings and retries, two different requests never both commit
      a transfer under the same key. */
  lemma AtMostOneCommitPerKey(b: Bank, moves: seq<Move>, i: Sid, j: Sid)
    requires BankOk(b) && i != j
    requires HasCommitted(Run(Quiet(b), moves), i) && HasCommitted(Run(Quiet(b), moves), j)
    requires Run(Quiet(b), moves).txns[i].req.Transfer? && Run(Quiet(b), moves).txns[j].req.Transfer?
    ensures Run(Quiet(b), moves).txns[i].req.key != Run(Quiet(b), moves).txns[j].req.key
  {
    OrderMatches(b, moves);
    QuietInv(b);
    Serializable(Quiet(b), moves);
    var order, log := CommitOrder(Quiet(b), moves), CommitLog(Quiet(b), moves);
    var p :| 0 <= p < |order| && order[p] == i;
    var q :| 0 <= q < |order| && order[q] == j;
    if p < q { AtMostOneTransferPerKey(b, log, p, q); } else { AtMostOneTransferPerKey(b, log, q, p); }
  }

  /** A committed transaction's request was accepted by the tables left by those that committed
      before it. */
  lemma CommittedWasAccepted(b: Bank, moves: seq<Move>, i: Sid) returns (p: nat)
    requires BankOk(b) && HasCommitted(Run(Quiet(b), moves), i)
    ensures p < |CommitLog(Quiet(b), moves)|
    ensures CommitLog(Quiet(b), moves)[p] == Run(Quiet(b), moves).txns[i].req
    ensures Accepts(Replay(b, CommitLog(Quiet(b), moves)[..p]), Run(Quiet(b), moves).txns[i].req)
  {
    OrderMatches(b, moves);
    QuietInv(b);
    Serializable(Quiet(b), moves);
    var order, log := CommitOrder(Quiet(b), moves), CommitLog(Quiet(b), moves);
    p :| 0 <= p < |order| && order[p] == i;
    PrefixAccepted(b, log, p + 1);
    assert log[..p + 1][..p] == log[..p];
  }

  /** In no run does a transfer commit under a key of more than 61 characters. */
  lemma CommittedKeysAreShort(moves: seq<Move>, i: Sid)
    requires HasCommitted(Reached(moves), i) && Reached(moves).txns[i].req.Transfer?
    ensures |Reached(moves).txns[i].req.key| <= 61
  {
    var r := Reached(moves).txns[i].req;
    var p := CommittedWasAccepted(EMPTY_BANK, moves, i);
    AcceptedMeans(Replay(EMPTY_BANK, SerialLog(moves)[..p]), r);
    assert PlannedRows(r)[1] in PlannedRows(r);
  }
}
