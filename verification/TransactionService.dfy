/** The services as they are written: methods over a session and the shared database, with other
    requests moving at every `await`. Each session keeps the run it has been part of. */
module TransactionService {
  import opened Wrappers
  import opened Ledger
  import opened AtomicBank
  import opened Bookkeeping
  import opened Protocol
  import opened ProtocolInvariant
  import opened Serializability
  import opened DeadlockFreedom
  import opened Answers
  import Money

  /** The database server: committed tables, lock tables, and the transactions in flight. */
  class Database {
    var accounts: map<Uuid, Account>
    var ledger: seq<Row>
    var audit: seq<Audit>
    var rowLocks: map<Uuid, Sid>
    var keyLocks: map<string, Sid>
    var txns: seq<Txn>

    function State(): World
      reads this
    {
      World(Bank(accounts, ledger, audit), rowLocks, keyLocks, txns)
    }

    constructor ()
      ensures State() == Quiet(EMPTY_BANK)
    {
      accounts, ledger, audit := map[], [], [];
      rowLocks, keyLocks, txns := map[], map[], [];
    }

    method Install(w: World)
      modifies this
      ensures State() == w
    {
      accounts, ledger, audit := w.bank.accounts, w.bank.ledger, w.bank.audit;
      rowLocks, keyLocks, txns := w.rowLocks, w.keyLocks, w.txns;
    }
  }

  /** The move belongs to transaction i. */
  predicate MoveOf(m: Move, i: Sid)
  {
    (m.Advance? || m.Cancel?) && m.i == i
  }

  /** Other requests' moves leave a transaction's own state alone. */
  lemma OthersLeaveMine(w: World, m: Move, i: Sid)
    requires i < |w.txns| && !MoveOf(m, i)
    ensures |Step(w, m).txns| >= |w.txns| && Step(w, m).txns[i] == w.txns[i]
  {
  }

  lemma ReachedSnoc(moves: seq<Move>, m: Move)
    ensures Reached(moves + [m]) == Step(Reached(moves), m)
  {
    assert (moves + [m])[..|moves|] == moves;
  }

  /** The next statement of transaction i ends it with outcome o. */
  predicate Ends(w: World, i: Sid, o: Outcome)
  {
    Live(w, i) && EffectOf(w, i) == Stop(o)
  }

  // What single statements do to the whole system, spelled out.

  lemma LockSteps(moves: seq<Move>, w: World, i: Sid, found: seq<Uuid>, n: nat)
    requires w == Reached(moves) && Live(w, i)
    requires w.txns[i].phase == Locking(found, n) && n < |found| && found[n] in w.bank.accounts
    requires found[n] in w.rowLocks ==> w.rowLocks[found[n]] == i
    ensures Reached(moves + [Advance(i)]) == w.(
              rowLocks := w.rowLocks[found[n] := i],
              txns := w.txns[i := w.txns[i].(
                phase := Locking(found, n + 1), cache := w.txns[i].cache[found[n] := w.bank.accounts[found[n]]])])
  {
    ReachedSnoc(moves, Advance(i));
  }

  lemma InsertSteps(moves: seq<Move>, w: World, i: Sid, n: nat, row: Row)
    requires w == Reached(moves) && Live(w, i) && w.txns[i].phase == Insert(n) && n < |PlannedRows(w.txns[i].req)|
    requires row == PlannedRows(w.txns[i].req)[n]
    requires row.key.Some? && row.key.value in w.keyLocks ==> w.keyLocks[row.key.value] == i
    requires RowRefusal(w.bank.ledger, row).None?
    ensures Reached(moves + [Advance(i)]) == w.(
              keyLocks := if row.key.Some? then w.keyLocks[row.key.value := i] else w.keyLocks,
              txns := w.txns[i := w.txns[i].(phase := Insert(n + 1), rows := w.txns[i].rows + [row])])
  {
    ReachedSnoc(moves, Advance(i));
  }

  lemma InsertFails(w: World, i: Sid, n: nat, row: Row)
    requires Live(w, i) && w.txns[i].phase == Insert(n) && n < |PlannedRows(w.txns[i].req)|
    requires row == PlannedRows(w.txns[i].req)[n] && RowRefusal(w.bank.ledger, row).Some?
    ensures Ends(w, i, Refused(RowRefusal(w.bank.ledger, row).value))
  {
  }

  lemma KeyWaits(w: World, i: Sid, n: nat, row: Row)
    requires Live(w, i) && w.txns[i].phase == Insert(n) && n < |PlannedRows(w.txns[i].req)|
    requires row == PlannedRows(w.txns[i].req)[n] && RowRefusal(w.bank.ledger, row).None?
    requires row.key.Some? && row.key.value in w.keyLocks && w.keyLocks[row.key.value] != i
    ensures Waiting(w, i)
  {
  }

  lemma RowWaits(w: World, i: Sid)
    requires Live(w, i) && w.txns[i].phase.Locking? && w.txns[i].phase.next < |w.txns[i].phase.found|
    requires var x := w.txns[i].phase.found[w.txns[i].phase.next]; x in w.rowLocks && w.rowLocks[x] != i
    ensures Waiting(w, i)
  {
  }

  lemma RollbackSteps(w: World, i: Sid, o: Outcome)
    requires Live(w, i) && (o == Refused(Cancelled) || Ends(w, i, o))
    ensures Step(w, if Ends(w, i, o) then Advance(i) else Cancel(i)) == End(w, i, w.bank, o)
  {
  }

  lemma CommitSteps(moves: seq<Move>, w: World, i: Sid)
    requires w == Reached(moves) && Live(w, i) && EffectOf(w, i).Publish?
    ensures Reached(moves + [Advance(i)])
         == World(Published(w.bank, w.txns[i]), Without(w.rowLocks, i), Without(w.keyLocks, i),
                  w.txns[i := w.txns[i].(phase := Finished(Committed(w.txns[i].rows)))])
  {
    ReachedSnoc(moves, Advance(i));
  }

  lemma CheckSteps(moves: seq<Move>, w: World, i: Sid)
    requires w == Reached(moves) && Live(w, i) && w.txns[i].phase.CheckAndWrite? && !w.txns[i].req.Open?
    requires Loaded(w.txns[i].cache, w.txns[i].req)
    ensures Refusal(w.txns[i].cache, w.txns[i].req).Some? ==>
              Ends(w, i, Refused(Refusal(w.txns[i].cache, w.txns[i].req).value))
    ensures Refusal(w.txns[i].cache, w.txns[i].req).None? ==>
              Reached(moves + [Advance(i)]) == w.(txns := w.txns[i := w.txns[i].(
                phase := Insert(0), cache := Moved(w.txns[i].cache, w.txns[i].req))])
  {
    ReachedSnoc(moves, Advance(i));
  }

  /** One request's database session: its identity map and its uncommitted rows. */
  class Session {
    const db: Database
    const sid: Sid
    const request: Request
    var phase: Phase
    var identity: map<Uuid, Account>
    var newRows: seq<Row>
    var newAudits: seq<Audit>

    // The run so far, from the empty bank: every move of every request.
    ghost var moves: seq<Move>

    function AsTxn(): Txn
      reads this
    {
      Txn(request, phase, identity, newRows, newAudits)
    }

    /** The whole system as this session takes part in it. */
    function Now(): World
      reads this, db
      requires sid < |db.txns|
    {
      db.State().(txns := db.txns[sid := AsTxn()])
    }

    ghost predicate Valid()
      reads this, db
    {
      sid < |db.txns| && Now() == Reached(moves)
    }

    /** The session has executed its next statement, and nothing else has happened: the run, which
        leads to the present state, is longer by that one move. */
    twostate predicate Executed()
      reads this
    {
      moves == old(moves) + [Advance(sid)]
    }

    /** Nothing has happened since. */
    twostate predicate Still()
      reads this, db
      requires old(sid < |db.txns|) && sid < |db.txns|
    {
      Now() == old(Now()) && moves == old(moves)
    }

    /** `get_db`: a fresh session for the request, on a database that has run so far. */
    constructor (db: Database, request: Request, ghost history: seq<Move>)
      requires db.State() == Reached(history) && SchemaAccepts(request)
      modifies db
      ensures this.db == db && this.request == request && Valid()
      ensures moves == history + [Begin(request)]
      ensures AsTxn() == Start(request)
    {
      this.db, this.sid, this.request := db, |db.txns|, request;
      phase := Start(request).phase;
      identity, newRows, newAudits := map[], [], [];
      moves := history + [Begin(request)];
      new;
      ReachedSnoc(history, Begin(request));
      db.txns := db.txns + [Start(request)];
      assert db.txns[sid := AsTxn()] == db.txns;
    }

    /** `await`: any number of moves by other requests. */
    method Await()
      requires Valid()
      modifies db, this`moves
      ensures Valid() && AsTxn() == old(AsTxn())
    {
      var schedule: seq<Move> := *;
      for k := 0 to |schedule|
        invariant Valid() && AsTxn() == old(AsTxn())
      {
        if !MoveOf(schedule[k], sid) {
          OthersLeaveMine(Now(), schedule[k], sid);
          ReachedSnoc(moves, schedule[k]);
          moves := moves + [schedule[k]];
          db.Install(Step(Now(), schedule[k]));
          assert db.txns[sid := AsTxn()] == db.txns;
        }
      }
    }

    /** The protocol's invariant holds. */
    lemma InvNow()
      requires Valid()
      ensures Inv(Now())
    {
      ReachedInv(moves);
    }

    /** Books the move about to be made. */
    ghost method Book(m: Move)
      requires Valid()
      modifies this`moves
      ensures moves == old(moves) + [m] && Reached(moves) == Step(Now(), m)
    {
      ReachedSnoc(moves, m);
      moves := moves + [m];
    }

    /** The booked move has been made. */
    ghost method Settle(before: Txn)
      requires sid < |db.txns|
      requires Reached(moves).bank == Bank(db.accounts, db.ledger, db.audit)
      requires Reached(moves).rowLocks == db.rowLocks && Reached(moves).keyLocks == db.keyLocks
      requires Reached(moves).txns == db.txns[sid := before][sid := AsTxn()]
      ensures Now() == Reached(moves)
    {
      assert db.txns[sid := before][sid := AsTxn()] == db.txns[sid := AsTxn()];
    }

    /** The next statement raises e; or, while it waits for another transaction, it is given up. */
    ghost predicate Failing(e: Error)
      reads this, db
      requires sid < |db.txns|
    {
      Ends(Now(), sid, Refused(e)) || (e == Cancelled && Waiting(Now(), sid))
    }

    // -------------------------------------------------------------------------
    // execute_transfer, step by step
    // -------------------------------------------------------------------------

    /** Step 1, first SELECT, and step 2. */
    method CheckIdempotency() returns (e: Option<Error>)
      requires Valid() && request.Transfer? && phase.Lookup?
      modifies this
      ensures Valid()
      ensures e.None? ==> Executed() && (phase.LookupCompanion? || phase.ReadSource?)
      ensures e.Some? ==> Still() && Ends(Now(), sid, Refused(e.value))
    {
      var existingOut := FindKey(db.ledger, request.key);
      if existingOut.None? {
        if request.amount <= 0 { return Some(InsufficientFunds); }
        if request.currency !in SUPPORTED_CURRENCIES { return Some(UnsupportedCurrency); }
        if request.source == request.target { return Some(AccountNotFound); }
      }
      Book(Advance(sid));
      phase := if existingOut.Some? then LookupCompanion(existingOut.value) else ReadSource;
      Settle(old(AsTxn()));
      return None;
    }

    /** Step 1, second SELECT: the companion row, or the "partial transfer" error. */
    method FetchCompanion() returns (r: Outcome)
      requires Valid() && request.Transfer? && phase.LookupCompanion?
      ensures Ends(Now(), sid, r) && !r.Committed?
    {
      var existingIn := FindKey(db.ledger, Companion(request.key));
      if existingIn.Some? { return Replayed(phase.seen, existingIn.value); }
      return Refused(PartialTransfer);
    }

    /** Step 3: the ownership check on an unlocked read, which fills the identity map. */
    method CheckOwnership() returns (e: Option<Error>)
      requires Valid() && request.Transfer? && phase.ReadSource?
      modifies this
      ensures Valid()
      ensures e.None? ==> Executed() && phase.SelectForUpdate?
      ensures e.Some? ==> Still() && Ends(Now(), sid, Refused(e.value))
    {
      if request.source !in db.accounts { return Some(AccountNotFound); }
      var fromAccountCheck := db.accounts[request.source];
      if fromAccountCheck.owner != request.user { return Some(Unauthorized); }
      Book(Advance(sid));
      identity := identity[request.source := fromAccountCheck];
      phase := SelectForUpdate;
      Settle(old(AsTxn()));
      return None;
    }

    /** The lock statement's snapshot. */
    method FindTargets() returns (e: Option<Error>)
      requires Valid() && phase.SelectForUpdate?
      modifies this
      ensures Valid()
      ensures e.None? ==> Executed() && phase.Locking? && phase.next == 0
      ensures e.Some? ==> Still() && Ends(Now(), sid, Refused(e.value))
    {
      var found := Existing(db.accounts, Targets(request));
      if |found| == 0 { return Some(AccountNotFound); }
      Book(Advance(sid));
      phase := Locking(found, 0);
      Settle(old(AsTxn()));
      return None;
    }

    /** Waits for a row lock, until it is free or patience ends. */
    method AwaitRow(x: Uuid) returns (granted: bool)
      requires Valid()
      modifies db, this`moves
      ensures Valid() && AsTxn() == old(AsTxn())
      ensures granted <==> (x in db.rowLocks ==> db.rowLocks[x] == sid)
    {
      Await();
      var patience: nat := *;
      while x in db.rowLocks && db.rowLocks[x] != sid && patience > 0
        invariant Valid() && AsTxn() == old(AsTxn())
        decreases patience
      {
        Await();
        patience := patience - 1;
      }
      granted := x in db.rowLocks ==> db.rowLocks[x] == sid;
    }

    /** The lock is granted: the row's latest committed version replaces the cached one
        (`populate_existing`). */
    method LockRow()
      requires Valid() && phase.Locking? && phase.next < |phase.found|
      requires phase.found[phase.next] in db.rowLocks ==> db.rowLocks[phase.found[phase.next]] == sid
      modifies this, db
      ensures Valid() && Executed()
      ensures phase == Locking(old(phase.found), old(phase.next) + 1)
    {
      var x := phase.found[phase.next];
      InvNow();
      FoundStays(Now(), sid);
      LockSteps(moves, Now(), sid, phase.found, phase.next);
      moves := moves + [Advance(sid)];
      db.rowLocks := db.rowLocks[x := sid];
      identity := identity[x := db.accounts[x]];
      phase := Locking(phase.found, phase.next + 1);
      Settle(old(AsTxn()));
    }

    /** All the rows asked for were there, or the statement's result is too short. */
    method CheckAllFound() returns (e: Option<Error>)
      requires Valid() && phase.Locking? && phase.next == |phase.found|
      modifies this
      ensures Valid()
      ensures e.None? ==> Executed() && phase.CheckAndWrite?
      ensures e.Some? ==> Still() && Ends(Now(), sid, Refused(e.value))
    {
      if |phase.found| != |Targets(request)| { return Some(AccountNotFound); }
      Book(Advance(sid));
      phase := CheckAndWrite;
      Settle(old(AsTxn()));
      return None;
    }

    /** `_lock_accounts_for_update`, and the single-row lock of `deposit_funds`. */
    method LockAccountsForUpdate() returns (e: Option<Error>)
      requires Valid() && phase.SelectForUpdate?
      modifies this, db
      ensures Valid()
      ensures e.None? ==> phase.CheckAndWrite?
      ensures e.Some? ==> Failing(e.value)
    {
      e := FindTargets();
      if e.Some? { return; }
      while phase.next < |phase.found|
        invariant Valid() && phase.Locking? && phase.next <= |phase.found|
        decreases if phase.Locking? then |phase.found| - phase.next else 0
      {
        var granted := AwaitRow(phase.found[phase.next]);
        if !granted {
          RowWaits(Now(), sid);
          return Some(Cancelled);
        }
        LockRow();
      }
      e := CheckAllFound();
    }

    /** Step 5, `_validate_account_active` and the rules that follow it, and the column limits
        the flush of step 6 would meet. */
    method ValidateTransfer() returns (e: Option<Error>)
      requires request.Transfer? && Loaded(identity, request)
      ensures e == Refusal(identity, request)
      ensures var source, target := identity[request.source], identity[request.target];
              e.None? <==>
                && source.status == Active && target.status == Active
                && source.currency == request.currency && target.currency == request.currency
                && request.amount <= source.balance
                && source.balance - request.amount < 1_000_000_000_000_000_000
                && 0 <= target.balance + request.amount < 1_000_000_000_000_000_000
    {
      var source, target := identity[request.source], identity[request.target];
      if source.status != Active { return Some(AccountFrozen); }
      if target.status != Active { return Some(AccountFrozen); }
      if source.currency != request.currency { return Some(UnsupportedCurrency); }
      if target.currency != request.currency { return Some(UnsupportedCurrency); }
      if source.balance < request.amount { return Some(InsufficientFunds); }
      if !Fits(source.balance - request.amount) || !Fits(target.balance + request.amount) { return Some(DataError); }
      return None;
    }

    /** Step 6: the balances change on the locked copies and are flushed. */
    method MoveBalances()
      requires Valid() && request.Transfer? && phase.CheckAndWrite?
      requires Loaded(identity, request) && Refusal(identity, request).None? && request.source != request.target
      modifies this
      ensures Valid() && Executed() && phase == Insert(0)
    {
      CheckSteps(moves, Now(), sid);
      moves := moves + [Advance(sid)];
      var source, target := identity[request.source], identity[request.target];
      identity := identity[request.source := source.(balance := source.balance - request.amount)]
                          [request.target := target.(balance := target.balance + request.amount)];
      phase := Insert(0);
      Settle(old(AsTxn()));
    }

    /** Steps 5 and 6. */
    method ApplyTransfer() returns (e: Option<Error>)
      requires Valid() && request.Transfer? && phase.CheckAndWrite?
      modifies this
      ensures Valid()
      ensures e.None? ==> Executed() && phase == Insert(0)
      ensures e.Some? ==> Still() && Ends(Now(), sid, Refused(e.value))
    {
      InvNow();
      RowsLoaded(Now(), sid);
      CheckSteps(moves, Now(), sid);
      e := ValidateTransfer();
      if e.None? { MoveBalances(); }
    }

    /** `deposit_funds` between the lock and the flush. */
    method ApplyDeposit() returns (e: Option<Error>)
      requires Valid() && request.Deposit? && phase.CheckAndWrite?
      modifies this
      ensures Valid()
      ensures e.None? ==> Executed() && phase == Insert(0)
      ensures e.Some? ==> Still() && Ends(Now(), sid, Refused(e.value))
    {
      InvNow();
      RowsLoaded(Now(), sid);
      CheckSteps(moves, Now(), sid);
      var account := identity[request.account];
      if account.owner != request.user { return Some(Unauthorized); }
      var balance := Money.Credited(account.balance, request.requested);
      if !Fits(balance) { return Some(DataError); }
      moves := moves + [Advance(sid)];
      identity := identity[request.account := account.(balance := balance)];
      phase := Insert(0);
      Settle(old(AsTxn()));
      return None;
    }

    /** `AccountRepository.update_status` on a locked row. */
    method UpdateStatus()
      requires Valid() && request.SetStatus? && phase.CheckAndWrite?
      modifies this
      ensures Valid() && Executed() && phase == Insert(0)
    {
      InvNow();
      RowsLoaded(Now(), sid);
      CheckSteps(moves, Now(), sid);
      moves := moves + [Advance(sid)];
      identity := identity[request.account := identity[request.account].(status := request.status)];
      phase := Insert(0);
      Settle(old(AsTxn()));
    }

    /** Waits while another transaction has inserted the key and not finished. */
    method AwaitKey(k: string) returns (granted: bool)
      requires Valid()
      modifies db, this`moves
      ensures Valid() && AsTxn() == old(AsTxn())
      ensures granted <==> (k in db.keyLocks ==> db.keyLocks[k] == sid)
    {
      Await();
      var patience: nat := *;
      while k in db.keyLocks && db.keyLocks[k] != sid && patience > 0
        invariant Valid() && AsTxn() == old(AsTxn())
        decreases patience
      {
        Await();
        patience := patience - 1;
      }
      granted := k in db.keyLocks ==> db.keyLocks[k] == sid;
    }

    /** The row goes in, uncommitted, and its key into the unique index. */
    method StoreRow(row: Row)
      requires Valid() && phase.Insert? && phase.next < |PlannedRows(request)|
      requires row == PlannedRows(request)[phase.next]
      requires row.key.Some? && row.key.value in db.keyLocks ==> db.keyLocks[row.key.value] == sid
      requires RowRefusal(db.ledger, row).None?
      modifies this, db
      ensures Valid() && Executed() && phase == Insert(old(phase.next) + 1)
    {
      InsertSteps(moves, Now(), sid, phase.next, row);
      moves := moves + [Advance(sid)];
      db.keyLocks := if row.key.Some? then db.keyLocks[row.key.value := sid] else db.keyLocks;
      newRows := newRows + [row];
      phase := Insert(phase.next + 1);
      Settle(old(AsTxn()));
    }

    /** What the database says to the row: column widths, then the unique index. */
    method CheckRow(row: Row) returns (e: Option<Error>)
      ensures e == RowRefusal(db.ledger, row)
    {
      if row.key.Some? && |row.key.value| > KEY_WIDTH { return Some(DataError); }
      if row.description.Some? && |row.description.value| > DESCRIPTION_WIDTH { return Some(DataError); }
      if !Fits(row.amount) { return Some(DataError); }
      if row.key.Some? {
        var taken := FindKey(db.ledger, row.key.value);
        if taken.Some? { return Some(DuplicateKey); }
      }
      return None;
    }

    /** The INSERT itself, once its key can be claimed, or given up while it cannot. */
    method InsertRow(row: Row, granted: bool) returns (e: Option<Error>)
      requires Valid() && phase.Insert? && phase.next < |PlannedRows(request)|
      requires row == PlannedRows(request)[phase.next]
      requires granted <==> (row.key.Some? && row.key.value in db.keyLocks ==> db.keyLocks[row.key.value] == sid)
      modifies this, db
      ensures Valid()
      ensures e.None? ==> Executed() && phase == Insert(old(phase.next) + 1)
      ensures e.Some? ==> Still() && Failing(e.value)
    {
      e := CheckRow(row);
      if e.Some? {
        InsertFails(Now(), sid, phase.next, row);
      } else if !granted {
        KeyWaits(Now(), sid, phase.next, row);
        e := Some(Cancelled);
      } else {
        StoreRow(row);
      }
    }

    /** `TransactionRepository.create`: add, flush, refresh. */
    method CreateRow(row: Row) returns (e: Option<Error>)
      requires Valid() && phase.Insert? && phase.next < |PlannedRows(request)|
      requires row == PlannedRows(request)[phase.next]
      modifies this, db
      ensures Valid()
      ensures e.None? ==> phase == Insert(old(phase.next) + 1)
      ensures e.Some? ==> Failing(e.value)
    {
      var granted := true;
      if row.key.Some? { granted := AwaitKey(row.key.value); } else { Await(); }
      e := InsertRow(row, granted);
    }

    /** All rows are in; the audit entry comes next. */
    method RowsDone()
      requires Valid() && phase == Insert(|PlannedRows(request)|)
      modifies this
      ensures Valid() && Executed() && phase.WriteAudit?
    {
      Book(Advance(sid));
      phase := WriteAudit;
      Settle(old(AsTxn()));
    }

    /** `AuditLogRepository.log`, inside the same transaction. */
    method LogAudit(entries: seq<Audit>)
      requires Valid() && phase.WriteAudit? && entries == PlannedAudits(request)
      modifies this
      ensures Valid() && Executed() && phase.Ready?
    {
      Book(Advance(sid));
      newAudits := entries;
      phase := Ready;
      Settle(old(AsTxn()));
    }

    /** COMMIT: the absolute balances, the rows and the audit entries become visible together,
        and the locks are released. */
    method Commit()
      requires Valid() && phase.Ready? && EffectOf(Now(), sid).Publish?
      modifies this, db
      ensures Valid() && Executed() && phase == Finished(Committed(old(newRows)))
    {
      CommitSteps(moves, Now(), sid);
      moves := moves + [Advance(sid)];
      db.accounts := Written(db.accounts, AsTxn());
      db.ledger := db.ledger + newRows;
      db.audit := db.audit + newAudits;
      db.rowLocks := Without(db.rowLocks, sid);
      db.keyLocks := Without(db.keyLocks, sid);
      phase := Finished(Committed(newRows));
      Settle(old(AsTxn()));
    }

    /** ROLLBACK, or the end of a request that wrote nothing. */
    method Rollback(o: Outcome)
      requires Valid() && Live(Now(), sid) && (o == Refused(Cancelled) || Ends(Now(), sid, o))
      modifies this, db
      ensures Valid() && phase == Finished(o)
      ensures db.accounts == old(db.accounts) && db.ledger == old(db.ledger) && db.audit == old(db.audit)
    {
      ghost var m := if Ends(Now(), sid, o) then Advance(sid) else Cancel(sid);
      RollbackSteps(Now(), sid, o);
      Book(m);
      db.rowLocks := Without(db.rowLocks, sid);
      db.keyLocks := Without(db.keyLocks, sid);
      phase := Finished(o);
      Settle(old(AsTxn()));
    }

    // -------------------------------------------------------------------------
    // The services
    // -------------------------------------------------------------------------

    /** What a service hands to its router: rows awaiting the commit, a response that needs no
        commit, or the error to roll back with. */
    ghost predicate Returned(r: Outcome)
      reads this, db
      requires sid < |db.txns|
    {
      match r
      case Committed(rows) => phase.Ready? && EffectOf(Now(), sid).Publish? && rows == newRows == PlannedRows(request)
      case Replayed(_, _) => Ends(Now(), sid, r)
      case Refused(e) => Failing(e)
    }

    /** The end of each service: its audit entry, and the rows it returns. */
    method Conclude(entries: seq<Audit>) returns (r: Outcome)
      requires Valid() && phase == Insert(|PlannedRows(request)|) && entries == PlannedAudits(request)
      requires !request.Open?
      modifies this, db
      ensures Valid() && Returned(r) && !r.Replayed?
    {
      RowsDone();
      Await();
      LogAudit(entries);
      InvNow();
      ReadyToPublish(Now(), sid);
      r := Committed(newRows);
    }

    /** `transaction_service.execute_transfer`. */
    method ExecuteTransfer() returns (r: Outcome)
      requires Valid() && request.Transfer? && phase.Lookup?
      modifies this, db
      ensures Valid() && Returned(r)
    {
      Await();
      var e := CheckIdempotency();
      if e.Some? { return Refused(e.value); }
      Await();
      if phase.LookupCompanion? {
        r := FetchCompanion();
        return;
      }
      e := CheckOwnership();
      if e.Some? { return Refused(e.value); }
      Await();
      e := LockAccountsForUpdate();
      if e.Some? { return Refused(e.value); }
      e := ApplyTransfer();
      if e.Some? { return Refused(e.value); }
      r := RecordTransfer();
    }

    /** Steps 7 and 8: the debit, the credit, the audit entry. */
    method RecordTransfer() returns (r: Outcome)
      requires Valid() && request.Transfer? && phase == Insert(0)
      modifies this, db
      ensures Valid() && Returned(r)
    {
      var e := CreateRow(Row(request.outId, request.source, TransferOut, request.amount,
                             Some(request.target), Some(request.key), request.description, request.outAt));
      if e.Some? { return Refused(e.value); }
      e := CreateRow(Row(request.inId, request.target, TransferIn, request.amount,
                         Some(request.source), Some(request.key + "_in"), request.description, request.inAt));
      if e.Some? { return Refused(e.value); }
      r := Conclude([TransferCompleted(request.user, request.outId, request.inId, request.amount,
                                       request.currency, request.source, request.target)]);
    }

    /** `account_service.deposit_funds`. */
    method DepositFunds() returns (r: Outcome)
      requires Valid() && request.Deposit? && phase.SelectForUpdate?
      modifies this, db
      ensures Valid() && Returned(r)
    {
      Await();
      var e := LockAccountsForUpdate();
      if e.Some? { return Refused(e.value); }
      e := ApplyDeposit();
      if e.Some? { return Refused(e.value); }
      var text := "External deposit";
      if request.description.Some? && request.description.value != "" { text := request.description.value; }
      e := CreateRow(Row(request.rowId, request.account, DepositRow, Money.LedgerCents(request.requested),
                         None, None, Some(text), request.at));
      if e.Some? { return Refused(e.value); }
      r := Conclude([DepositCompleted(request.user, request.rowId, request.requested, request.account)]);
    }

    /** `account_service.create_account`, the currency check, and the INSERT of the new row. */
    method InsertAccount() returns (e: Option<Error>)
      requires Valid() && request.Open? && phase.CheckAndWrite?
      modifies this
      ensures Valid()
      ensures e.None? ==> Executed() && phase == Insert(0)
      ensures e.Some? ==> Still() && Ends(Now(), sid, Refused(e.value))
    {
      OpenSteps(Now(), sid);
      if request.currency !in SUPPORTED_CURRENCIES { return Some(UnsupportedCurrency); }
      if request.account in db.accounts { return Some(DuplicateKey); }
      Book(Advance(sid));
      phase := Insert(0);
      Settle(old(AsTxn()));
      return None;
    }

    /** `account_service.create_account`. */
    method OpenAccount() returns (r: Outcome)
      requires Valid() && request.Open? && phase.CheckAndWrite?
      modifies this, db
      ensures Valid() && Returned(r)
    {
      Await();
      var e := InsertAccount();
      if e.Some? { return Refused(e.value); }
      RowsDone();
      Await();
      LogAudit([AccountCreated(request.user, request.account, request.currency)]);
      InvNow();
      ReadyToOpen(Now(), sid);
      if request.account in db.accounts { return Refused(DuplicateKey); }
      r := Committed(newRows);
    }

    // -------------------------------------------------------------------------
    // The routers: commit boundary, and rollback on any exception
    // -------------------------------------------------------------------------

    /** The session hands its place in the system back to the database, where others can go on. */
    method Close()
      requires Valid()
      modifies db
      ensures Valid() && Now() == old(Now()) && db.State() == Reached(moves)
    {
      db.txns := db.txns[sid := AsTxn()];
      assert db.txns[sid := AsTxn()] == db.txns;
      assert db.txns == old(db.txns[sid := AsTxn()]);
    }

    /** The response is sent: the session is over with it. A commit is the request's atomic action
        on the tables as they are at that moment; nothing else changes them. */
    method Respond(r: Outcome)
      requires Valid() && Returned(r)
      modifies this, db
      ensures Valid() && phase == Finished(r) && db.State() == Reached(moves)
      ensures r.Committed? ==> (Now().bank, r) == Apply(old(Now().bank), request)
      ensures !r.Committed? ==> Now().bank == old(Now().bank)
    {
      if r.Committed? {
        InvNow();
        CommitIsAtomic(moves, Now(), sid);
        Commit();
      } else {
        Rollback(r);
      }
      Close();
    }

    /** Everything committed so far is a serial execution. */
    lemma SerialNow()
      requires Valid()
      ensures Now().bank == Replay(EMPTY_BANK, SerialLog(moves))
    {
      ReachedIsSerial(moves);
    }

    /** `create_transfer`. A committed transfer is the atomic transfer applied to the tables it found
        at its commit; any other response leaves the tables. No refusal is without a reason. A
        transfer answered with a pair has both rows in the ledger; they are a debit and its mirrored
        credit unless the key was taken by another transfer's credit. The partial-transfer error is
        only for keys that end in the suffix. And all that was ever committed is a serial execution. */
    method CreateTransfer() returns (r: Outcome, ghost before: Bank)
      requires Valid() && request.Transfer? && phase.Lookup?
      modifies this, db
      ensures Valid() && phase == Finished(r) && db.State() == Reached(moves)
      ensures if r.Committed? then (Now().bank, r) == Apply(before, request) else Now().bank == before
      ensures r.Refused? && r.error != Cancelled ==> WasTrue(moves, sid, request, r.error)
      ensures Succeeded(r) ==>
                && |Pair(r)| == 2 && Pair(r)[0] in db.ledger && Pair(r)[1] in db.ledger
                && (!EndsInSuffix(request.key) ==> Mirrors(Pair(r)[0], Pair(r)[1]))
      ensures r == Refused(PartialTransfer) ==> EndsInSuffix(request.key)
      ensures Now().bank == Replay(EMPTY_BANK, SerialLog(moves))
    {
      r := ExecuteTransfer();
      before := Now().bank;
      Respond(r);
      InvNow();
      if Succeeded(r) { SameKeySamePair(moves, sid, sid); }
      if r == Refused(PartialTransfer) { PartialTransferOnlyOnCredits(moves, sid); }
      RefusalsAreJustified(moves, sid);
      SerialNow();
    }

    /** The deposit endpoint. */
    method CreateDeposit() returns (r: Outcome, ghost before: Bank)
      requires Valid() && request.Deposit? && phase.SelectForUpdate?
      modifies this, db
      ensures Valid() && phase == Finished(r) && db.State() == Reached(moves)
      ensures if r.Committed? then (Now().bank, r) == Apply(before, request) else Now().bank == before
      ensures r.Refused? && r.error != Cancelled ==> WasTrue(moves, sid, request, r.error)
      ensures Now().bank == Replay(EMPTY_BANK, SerialLog(moves))
    {
      r := DepositFunds();
      before := Now().bank;
      Respond(r);
      RefusalsAreJustified(moves, sid);
      SerialNow();
    }

    /** The account endpoint: a new account starts empty and active. */
    method CreateAccount() returns (r: Outcome, ghost before: Bank)
      requires Valid() && request.Open? && phase.CheckAndWrite?
      modifies this, db
      ensures Valid() && phase == Finished(r) && db.State() == Reached(moves)
      ensures if r.Committed? then (Now().bank, r) == Apply(before, request) else Now().bank == before
      ensures r.Refused? && r.error != Cancelled ==> WasTrue(moves, sid, request, r.error)
      ensures r.Committed? ==> request.account !in before.accounts && request.account in db.accounts
      ensures r.Committed? ==> db.accounts[request.account] == Account(request.user, request.currency, 0, Active)
      ensures Now().bank == Replay(EMPTY_BANK, SerialLog(moves))
    {
      r := OpenAccount();
      before := Now().bank;
      Respond(r);
      if r.Committed? { OpensEmpty(before, request); }
      RefusalsAreJustified(moves, sid);
      SerialNow();
    }
  }

  lemma OpensEmpty(b: Bank, r: Request)
    requires r.Open? && Apply(b, r).1.Committed?
    ensures r.account !in b.accounts && r.account in Apply(b, r).0.accounts
    ensures Apply(b, r).0.accounts[r.account] == Account(r.user, r.currency, 0, Active)
  {
  }

  /** A commit is the atomic action of its request. */
  lemma CommitIsAtomic(moves: seq<Move>, w: World, i: Sid)
    requires w == Reached(moves) && Inv(w) && Live(w, i) && EffectOf(w, i).Publish?
    requires w.txns[i].rows == PlannedRows(w.txns[i].req)
    ensures (Reached(moves + [Advance(i)]).bank, Committed(w.txns[i].rows)) == Apply(w.bank, w.txns[i].req)
  {
    ReachedSnoc(moves, Advance(i));
    StepRefines(w, Advance(i));
    AcceptedMeans(w.bank, w.txns[i].req);
  }

  lemma OpenSteps(w: World, i: Sid)
    requires Live(w, i) && w.txns[i].phase.CheckAndWrite? && w.txns[i].req.Open?
    ensures w.txns[i].req.currency !in SUPPORTED_CURRENCIES ==> Ends(w, i, Refused(UnsupportedCurrency))
    ensures w.txns[i].req.currency in SUPPORTED_CURRENCIES && w.txns[i].req.account in w.bank.accounts ==>
              Ends(w, i, Refused(DuplicateKey))
    ensures w.txns[i].req.currency in SUPPORTED_CURRENCIES && w.txns[i].req.account !in w.bank.accounts ==>
              Step(w, Advance(i)) == w.(txns := w.txns[i := w.txns[i].(phase := Insert(0))])
  {
  }

  lemma ReadyToOpen(w: World, i: Sid)
    requires Inv(w) && i < |w.txns| && w.txns[i].phase.Ready? && w.txns[i].req.Open?
    ensures w.txns[i].rows == PlannedRows(w.txns[i].req)
    ensures if w.txns[i].req.account in w.bank.accounts
            then Ends(w, i, Refused(DuplicateKey)) else EffectOf(w, i).Publish?
  {
    assert TxnOk(w.bank, w.txns[i]);
  }

  lemma ReadyToPublish(w: World, i: Sid)
    requires Inv(w) && i < |w.txns| && w.txns[i].phase.Ready? && !w.txns[i].req.Open?
    ensures EffectOf(w, i).Publish? && w.txns[i].rows == PlannedRows(w.txns[i].req)
  {
    assert TxnOk(w.bank, w.txns[i]);
  }

  /** After the lock statement every row the request works on is in the identity map. */
  lemma RowsLoaded(w: World, i: Sid)
    requires Inv(w) && i < |w.txns| && w.txns[i].phase.CheckAndWrite?
    ensures Loaded(w.txns[i].cache, w.txns[i].req)
    ensures w.txns[i].req.Transfer? ==> w.txns[i].req.source != w.txns[i].req.target
  {
    assert TxnOk(w.bank, w.txns[i]);
    FreshAgrees(w.bank.accounts, w.txns[i].cache, w.txns[i].req);
  }

  /** The row a lock statement is about to lock is still there. */
  lemma FoundStays(w: World, i: Sid)
    requires Inv(w) && i < |w.txns| && w.txns[i].phase.Locking?
    requires w.txns[i].phase.next < |w.txns[i].phase.found|
    ensures w.txns[i].phase.found[w.txns[i].phase.next] in w.bank.accounts
  {
    assert TxnOk(w.bank, w.txns[i]);
  }
}
