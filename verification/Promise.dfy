/** What a request would answer if the tables stayed as they are: the statement-by-statement
    protocol computes exactly the atomic action's response, in every branch. */
module Promise {
  import opened Ledger
  import opened AtomicBank
  import opened Protocol
  import opened ProtocolInvariant
  import opened Serializability
  import opened DeadlockFreedom

  function FromInserts(b: Bank, r: Request, n: nat): Outcome
    requires n <= |PlannedRows(r)|
    decreases |PlannedRows(r)| - n
  {
    var rows := PlannedRows(r);
    if n == |rows| then if r.Open? && r.account in b.accounts then Refused(DuplicateKey) else Committed(rows)
    else if RowRefusal(b.ledger, rows[n]).Some? then Refused(RowRefusal(b.ledger, rows[n]).value)
    else FromInserts(b, r, n + 1)
  }

  function FromChecks(b: Bank, r: Request): Outcome
  {
    if r.Open? then
      if r.currency !in SUPPORTED_CURRENCIES then Refused(UnsupportedCurrency)
      else if r.account in b.accounts then Refused(DuplicateKey) else FromInserts(b, r, 0)
    else if !Loaded(b.accounts, r) then Refused(AccountNotFound)
    else if Refusal(b.accounts, r).Some? then Refused(Refusal(b.accounts, r).value)
    else FromInserts(b, r, 0)
  }

  /** The response the transaction is heading for, if nobody else commits. */
  function Heading(b: Bank, t: Txn): Outcome
  {
    match t.phase
    case Lookup => if t.req.Transfer? then ApplyTransfer(b, t.req).1 else Refused(Cancelled)
    case LookupCompanion(seen) =>
      if FindKey(b.ledger, if t.req.Transfer? then Companion(t.req.key) else "").Some?
      then Replayed(seen, FindKey(b.ledger, if t.req.Transfer? then Companion(t.req.key) else "").value)
      else Refused(PartialTransfer)
    case ReadSource =>
      if t.req.Transfer? && SourceRefusal(b.accounts, t.req).Some? then Refused(SourceRefusal(b.accounts, t.req).value)
      else FromChecks(b, t.req)
    case SelectForUpdate => FromChecks(b, t.req)
    case Locking(found, _) =>
      if |found| == |Targets(t.req)| then FromChecks(b, t.req) else Refused(AccountNotFound)
    case CheckAndWrite => FromChecks(b, t.req)
    case Insert(n) => if n <= |PlannedRows(t.req)| then FromInserts(b, t.req, n) else Refused(Cancelled)
    case WriteAudit => FromInserts(b, t.req, |PlannedRows(t.req)|)
    case Ready => FromInserts(b, t.req, |PlannedRows(t.req)|)
    case Finished(o) => o
  }

  /** A request sets out for the atomic action's response. */
  lemma HeadsForApply(b: Bank, r: Request)
    ensures Heading(b, Start(r)) == Apply(b, r).1
  {
    if r.Deposit? {
      var rows := PlannedRows(r);
      assert FromInserts(b, r, 0) == if RowRefusal(b.ledger, rows[0]).Some?
                                     then Refused(RowRefusal(b.ledger, rows[0]).value) else Committed(rows);
    }
  }

  lemma ExistingAll(accounts: map<Uuid, Account>, r: Request)
    requires !r.Open?
    ensures |Existing(accounts, Targets(r))| == |Targets(r)| <==> Loaded(accounts, r)
    ensures Loaded(accounts, r) ==> Existing(accounts, Targets(r)) == Targets(r)
  {
    var ids := Targets(r);
    if |ids| == 2 {
      assert Existing(accounts, ids[1..]) == if ids[1] in accounts then [ids[1]] else [] by {
        assert ids[1..][1..] == [];
      }
    } else {
      assert ids[1..] == [];
    }
  }

  lemma TransferHeads(b: Bank, r: Request)
    requires r.Transfer? && FindKey(b.ledger, r.key).None?
    requires LocalRefusal(r).None? && SourceRefusal(b.accounts, r).None?
    ensures ApplyTransfer(b, r).1 == FromChecks(b, r)
  {
    var rows := PlannedRows(r);
    assert FromInserts(b, r, 2) == Committed(rows);
    assert FromInserts(b, r, 1) == if RowRefusal(b.ledger, rows[1]).Some?
                                   then Refused(RowRefusal(b.ledger, rows[1]).value) else Committed(rows);
  }

  /** The effect keeps the heading, and a transaction that stops or commits answers with it. */
  predicate KeepsHeading(b: Bank, t: Txn, e: Effect)
  {
    match e
    case Wait(_) => true
    case Continue(n) => Heading(b, n) == Heading(b, t)
    case TakeRow(_, n) => Heading(b, n) == Heading(b, t)
    case TakeKey(_, n) => Heading(b, n) == Heading(b, t)
    case Stop(o) => o == Heading(b, t)
    case Publish => Committed(t.rows) == Heading(b, t)
  }

  lemma LookupHeads(b: Bank, t: Txn)
    requires t.req.Transfer? && t.phase.Lookup?
    ensures KeepsHeading(b, t, NextLookup(b, t))
  {
    if FindKey(b.ledger, t.req.key).None? && LocalRefusal(t.req).None? && SourceRefusal(b.accounts, t.req).None? {
      TransferHeads(b, t.req);
    }
  }

  lemma SelectHeads(b: Bank, t: Txn)
    requires TxnOk(b, t) && t.phase.SelectForUpdate?
    ensures KeepsHeading(b, t, NextSelect(b, t))
  {
    ExistingAll(b.accounts, t.req);
  }

  lemma LockHeads(b: Bank, locks: map<Uuid, Sid>, i: Sid, t: Txn)
    requires TxnOk(b, t) && t.phase.Locking?
    ensures KeepsHeading(b, t, NextLock(b, locks, i, t))
  {
  }

  lemma ChecksHead(b: Bank, t: Txn)
    requires TxnOk(b, t) && t.phase.CheckAndWrite?
    ensures KeepsHeading(b, t, NextCheck(b, t))
  {
    FreshAgrees(b.accounts, t.cache, t.req);
    SameWhereItWorks(t.cache, b.accounts, t.req);
  }

  lemma InsertHeads(b: Bank, locks: map<string, Sid>, i: Sid, t: Txn)
    requires TxnOk(b, t) && t.phase.Insert?
    ensures KeepsHeading(b, t, NextInsert(b, locks, i, t))
  {
  }

  /** Statement by statement, a transaction keeps heading for the same response, and when it
      stops or commits it gives that response. */
  lemma StatementKeepsHeading(b: Bank, rowLocks: map<Uuid, Sid>, keyLocks: map<string, Sid>, i: Sid, t: Txn)
    requires TxnOk(b, t) && Unfinished(t)
    ensures KeepsHeading(b, t, Next(b, rowLocks, keyLocks, i, t))
  {
    match t.phase
    case Lookup => LookupHeads(b, t);
    case LookupCompanion(_) =>
    case ReadSource =>
    case SelectForUpdate => SelectHeads(b, t);
    case Locking(_, _) => LockHeads(b, rowLocks, i, t);
    case CheckAndWrite => ChecksHead(b, t);
    case Insert(_) => InsertHeads(b, keyLocks, i, t);
    case WriteAudit =>
    case Ready =>
  }

  // ---------------------------------------------------------------------------
  // A request that nobody disturbs
  // ---------------------------------------------------------------------------

  /** Nobody but transaction i has locked a row or inserted a key. */
  ghost predicate Undisturbed(w: World, i: Sid)
  {
    forall j :: 0 <= j < |w.txns| && j != i ==> Held(w.txns[j]) == {} && Reserved(w.txns[j]) == {}
  }

  /** Nobody has. */
  ghost predicate Idle(w: World)
  {
    forall j :: 0 <= j < |w.txns| ==> Held(w.txns[j]) == {} && Reserved(w.txns[j]) == {}
  }

  lemma NobodyWaitsForItself(w: World, i: Sid, j: Sid)
    requires WaitsFor(w, i, j)
    ensures i != j
  {
  }

  lemma NeverWaits(w: World, i: Sid)
    requires Inv(w) && Live(w, i) && Undisturbed(w, i)
    ensures !Waiting(w, i)
  {
    if Waiting(w, i) {
      var j := EffectOf(w, i).holder;
      NobodyWaitsForItself(w, i, j);
      if w.txns[i].phase.Locking? { RowWait(w, i, j); } else { KeyWait(w, i, j); }
      assert false;
    }
  }

  /** What a statement of transaction i leaves behind, given the response h it was heading for. */
  predicate Leaves(w: World, s: World, i: Sid, h: Outcome)
    requires i < |w.txns|
  {
    && |s.txns| == |w.txns| && s.txns[i].req == w.txns[i].req && s.txns == w.txns[i := s.txns[i]]
    && (Unfinished(s.txns[i]) ==> s.bank == w.bank)
    && (!Unfinished(s.txns[i]) ==>
          && s.txns[i].phase == Finished(h)
          && s.bank == if h.Committed? then Apply(w.bank, w.txns[i].req).0 else w.bank)
  }

  lemma PerformLeaves(w: World, i: Sid, e: Effect, h: Outcome)
    requires Live(w, i) && EffectOk(w.bank, w.txns[i], e) && !e.Wait?
    requires e.Stop? ==> e.outcome == h
    requires e.Publish? ==> Committed(w.txns[i].rows) == h
    ensures Leaves(w, Perform(w, i, e), i, h)
    ensures Unfinished(Perform(w, i, e).txns[i]) ==> (
      match e
      case Continue(n) => Perform(w, i, e).txns[i] == n
      case TakeRow(_, n) => Perform(w, i, e).txns[i] == n
      case TakeKey(_, n) => Perform(w, i, e).txns[i] == n
      case _ => false)
  {
  }

  /** One executed statement. */
  lemma ExecutedStep(w: World, i: Sid)
    requires Inv(w) && Live(w, i) && !Waiting(w, i)
    ensures Leaves(w, Step(w, Advance(i)), i, Heading(w.bank, w.txns[i]))
    ensures Unfinished(Step(w, Advance(i)).txns[i]) ==>
              Heading(w.bank, Step(w, Advance(i)).txns[i]) == Heading(w.bank, w.txns[i])
  {
    EffectInOrder(w, i);
    StatementKeepsHeading(w.bank, w.rowLocks, w.keyLocks, i, w.txns[i]);
    PerformLeaves(w, i, EffectOf(w, i), Heading(w.bank, w.txns[i]));
  }

  /** Undisturbed, a transaction finishes with the response it is heading for. */
  lemma {:induction false} FinishUndisturbed(w: World, i: Sid) returns (moves: seq<Move>)
    requires Inv(w) && Live(w, i) && Undisturbed(w, i)
    ensures Leaves(w, Run(w, moves), i, Heading(w.bank, w.txns[i])) && !Unfinished(Run(w, moves).txns[i])
    ensures Inv(Run(w, moves))
    decreases TotalRemaining(w.txns)
  {
    NeverWaits(w, i);
    ExecutedStep(w, i);
    MoveShortens(w, i);
    StepKeepsInv(w, Advance(i));
    var next := Step(w, Advance(i));
    var rest := [];
    if Unfinished(next.txns[i]) {
      rest := FinishUndisturbed(next, i);
    }
    RunAfter(w, Advance(i), rest);
    moves := [Advance(i)] + rest;
  }

  /** Run while nobody else holds anything, statement by statement, every request gives the atomic
      action's response, error for error, and leaves its tables. */
  lemma AloneIsAtomic(w: World, r: Request) returns (moves: seq<Move>)
    requires Inv(w) && Idle(w) && SchemaAccepts(r)
    ensures var s := Run(w, moves);
            && Inv(s) && Idle(s)
            && |s.txns| == |w.txns| + 1 && s.txns[..|w.txns|] == w.txns
            && s.txns[|w.txns|].req == r && s.txns[|w.txns|].phase == Finished(Apply(w.bank, r).1)
            && s.bank == Apply(w.bank, r).0
  {
    var i := |w.txns|;
    StepKeepsInv(w, Begin(r));
    var started := Step(w, Begin(r));
    HeadsForApply(w.bank, r);
    var rest := FinishUndisturbed(started, i);
    RunAfter(w, Begin(r), rest);
    OnlyCommitsWrite(w.bank, r);
    moves := [Begin(r)] + rest;
  }

  lemma {:induction false} RunConcat(w: World, one: seq<Move>, two: seq<Move>)
    ensures Run(w, one + two) == Run(Run(w, one), two)
    decreases |two|
  {
    if |two| == 0 {
      assert one + two == one;
    } else {
      RunConcat(w, one, two[..|two| - 1]);
      assert (one + two)[..|one + two| - 1] == one + two[..|two| - 1];
    }
  }

  /** The converse of serializability: every serial history from the empty bank is what some run
      commits. */
  lemma {:induction false} EveryHistoryIsReached(log: seq<Request>) returns (moves: seq<Move>)
    requires AllAccepted(EMPTY_BANK, log)
    ensures Reached(moves).bank == Replay(EMPTY_BANK, log) && Idle(Reached(moves))
  {
    moves := [];
    if |log| > 0 {
      var front := EveryHistoryIsReached(log[..|log| - 1]);
      ReachedInv(front);
      var more := AloneIsAtomic(Reached(front), log[|log| - 1]);
      RunConcat(Quiet(EMPTY_BANK), front, more);
      moves := front + more;
    }
  }
}
