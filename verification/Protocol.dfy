/** The interleaved protocol: any number of requests in flight over the shared tables, each in
    its own database transaction at READ COMMITTED, stepping one statement at a time. */
module Protocol {
  import opened Ledger
  import opened AtomicBank

  /** A request in flight is known by its position in the list of transactions. */
  type Sid = nat

  /** Where a request's coroutine is: the statement it runs next. */
  datatype Phase =
    | Lookup                              // SELECT ... WHERE idempotency_key = k
    | LookupCompanion(seen: Row)          // SELECT ... WHERE idempotency_key = k_in
    | ReadSource                          // SELECT the source account, no lock
    | SelectForUpdate                     // SELECT ... FOR UPDATE starts: its snapshot is taken
    | Locking(found: seq<Uuid>, next: nat) // its rows are locked in ascending order
    | CheckAndWrite                       // rules on the locked rows, then UPDATE of the balances
    | Insert(next: nat)                   // INSERT of the next ledger row
    | WriteAudit                          // INSERT of the audit entry
    | Ready                               // COMMIT
    | Finished(outcome: Outcome)

  /** One database transaction: the request, the session's identity map, and the rows it has
      inserted but not committed. */
  datatype Txn = Txn(req: Request, phase: Phase, cache: map<Uuid, Account>, rows: seq<Row>, audits: seq<Audit>)

  /** The committed tables, the lock tables and the transactions. */
  datatype World = World(bank: Bank, rowLocks: map<Uuid, Sid>, keyLocks: map<string, Sid>, txns: seq<Txn>)

  /** What the next statement of a transaction does. */
  datatype Effect =
    | Wait(holder: Sid)
    | Continue(txn: Txn)
    | TakeRow(row: Uuid, txn: Txn)
    | TakeKey(key: string, txn: Txn)
    | Stop(outcome: Outcome)   // response without a commit, or exception and rollback
    | Publish                  // commit

  /** The accounts a request locks, in ascending order of their ids. */
  function Targets(r: Request): (ids: seq<Uuid>)
    ensures |ids| <= 2
  {
    match r
    case Transfer(s, t, _, _, _, _, _, _, _, _, _) => if s < t then [s, t] else [t, s]
    case Deposit(a, _, _, _, _, _) => [a]
    case SetStatus(a, _) => [a]
    case Open(_, _, _) => []
  }

  function Existing(accounts: map<Uuid, Account>, ids: seq<Uuid>): (found: seq<Uuid>)
    ensures |found| <= |ids|
  {
    if |ids| == 0 then []
    else (if ids[0] in accounts then [ids[0]] else []) + Existing(accounts, ids[1..])
  }

  function Start(r: Request): Txn
  {
    Txn(r, if r.Transfer? then Lookup else if r.Open? then CheckAndWrite else SelectForUpdate, map[], [], [])
  }

  predicate Unfinished(t: Txn)
  {
    !t.phase.Finished?
  }

  // ---------------------------------------------------------------------------
  // The next statement
  // ---------------------------------------------------------------------------

  function Fail(e: Error): Effect
  {
    Stop(Refused(e))
  }

  function NextLookup(bank: Bank, t: Txn): Effect
    requires t.req.Transfer?
  {
    var seen := FindKey(bank.ledger, t.req.key);
    if seen.Some? then Continue(t.(phase := LookupCompanion(seen.value)))
    else if LocalRefusal(t.req).Some? then Fail(LocalRefusal(t.req).value)
    else Continue(t.(phase := ReadSource))
  }

  function NextCompanion(bank: Bank, t: Txn): Effect
    requires t.req.Transfer? && t.phase.LookupCompanion?
  {
    var companion := FindKey(bank.ledger, Companion(t.req.key));
    if companion.Some? then Stop(Replayed(t.phase.seen, companion.value)) else Fail(PartialTransfer)
  }

  /** The unlocked read leaves its row in the identity map. */
  function NextReadSource(bank: Bank, t: Txn): Effect
    requires t.req.Transfer?
  {
    var s := t.req.source;
    if SourceRefusal(bank.accounts, t.req).Some? then Fail(SourceRefusal(bank.accounts, t.req).value)
    else Continue(t.(phase := SelectForUpdate, cache := t.cache[s := bank.accounts[s]]))
  }

  function NextSelect(bank: Bank, t: Txn): Effect
  {
    var found := Existing(bank.accounts, Targets(t.req));
    if |found| == 0 then Fail(AccountNotFound) else Continue(t.(phase := Locking(found, 0)))
  }

  /** A granted lock brings the latest committed version of the row into the identity map. */
  function NextLock(bank: Bank, rowLocks: map<Uuid, Sid>, i: Sid, t: Txn): Effect
    requires t.phase.Locking?
  {
    var found, n := t.phase.found, t.phase.next;
    if n >= |found| then
      if |found| == |Targets(t.req)| then Continue(t.(phase := CheckAndWrite)) else Fail(AccountNotFound)
    else
      var x := found[n];
      if x in rowLocks && rowLocks[x] != i then Wait(rowLocks[x])
      else if x !in bank.accounts then Fail(AccountNotFound)
      else TakeRow(x, t.(phase := Locking(found, n + 1), cache := t.cache[x := bank.accounts[x]]))
  }

  /** The rules are checked, and the new balances computed, on the identity map. */
  function NextCheck(bank: Bank, t: Txn): Effect
  {
    var r := t.req;
    if r.Open? then
      if r.currency !in SUPPORTED_CURRENCIES then Fail(UnsupportedCurrency)
      else if r.account in bank.accounts then Fail(DuplicateKey)
      else Continue(t.(phase := Insert(0)))
    else if !Loaded(t.cache, r) then Fail(AccountNotFound)
    else if Refusal(t.cache, r).Some? then Fail(Refusal(t.cache, r).value)
    else Continue(t.(phase := Insert(0), cache := Moved(t.cache, r)))
  }

  /** A key that another unfinished transaction has inserted makes the insert wait. */
  function NextInsert(bank: Bank, keyLocks: map<string, Sid>, i: Sid, t: Txn): Effect
    requires t.phase.Insert?
  {
    var n, rows := t.phase.next, PlannedRows(t.req);
    if n >= |rows| then Continue(t.(phase := WriteAudit))
    else
      var row := rows[n];
      var after := t.(phase := Insert(n + 1), rows := t.rows + [row]);
      if RowRefusal(bank.ledger, row).Some? then Fail(RowRefusal(bank.ledger, row).value)
      else if row.key.None? then Continue(after)
      else if row.key.value in keyLocks && keyLocks[row.key.value] != i then Wait(keyLocks[row.key.value])
      else TakeKey(row.key.value, after)
  }

  function Next(bank: Bank, rowLocks: map<Uuid, Sid>, keyLocks: map<string, Sid>, i: Sid, t: Txn): Effect
  {
    match t.phase
    case Lookup => if t.req.Transfer? then NextLookup(bank, t) else Fail(Cancelled)
    case LookupCompanion(_) => if t.req.Transfer? then NextCompanion(bank, t) else Fail(Cancelled)
    case ReadSource => if t.req.Transfer? then NextReadSource(bank, t) else Fail(Cancelled)
    case SelectForUpdate => NextSelect(bank, t)
    case Locking(_, _) => NextLock(bank, rowLocks, i, t)
    case CheckAndWrite => NextCheck(bank, t)
    case Insert(_) => NextInsert(bank, keyLocks, i, t)
    case WriteAudit => Continue(t.(phase := Ready, audits := PlannedAudits(t.req)))
    case Ready => if t.req.Open? && t.req.account in bank.accounts then Fail(DuplicateKey) else Publish
    case Finished(_) => Continue(t)
  }

  // ---------------------------------------------------------------------------
  // Commit
  // ---------------------------------------------------------------------------

  /** UPDATE accounts SET balance = <the identity map's value>: an absolute write. */
  function WriteBalance(accounts: map<Uuid, Account>, cache: map<Uuid, Account>, x: Uuid): map<Uuid, Account>
  {
    if x in accounts && x in cache then SetBalance(accounts, x, cache[x].balance) else accounts
  }

  function Written(accounts: map<Uuid, Account>, t: Txn): map<Uuid, Account>
  {
    match t.req
    case Transfer(s, g, _, _, _, _, _, _, _, _, _) => WriteBalance(WriteBalance(accounts, t.cache, s), t.cache, g)
    case Deposit(a, _, _, _, _, _) => WriteBalance(accounts, t.cache, a)
    case SetStatus(a, _) =>
      if a in accounts && a in t.cache then accounts[a := accounts[a].(status := t.cache[a].status)] else accounts
    case Open(a, user, c) => accounts[a := Account(user, c, 0, Active)]
  }

  function Published(bank: Bank, t: Txn): Bank
  {
    Bank(Written(bank.accounts, t), bank.ledger + t.rows, bank.audit + t.audits)
  }

  function Without<K>(locks: map<K, Sid>, i: Sid): map<K, Sid>
  {
    map k | k in locks && locks[k] != i :: locks[k]
  }

  /** The transaction is over: its locks and reserved keys are released. */
  function End(w: World, i: Sid, bank: Bank, outcome: Outcome): World
    requires i < |w.txns|
  {
    World(bank, Without(w.rowLocks, i), Without(w.keyLocks, i), w.txns[i := w.txns[i].(phase := Finished(outcome))])
  }

  function Perform(w: World, i: Sid, e: Effect): World
    requires i < |w.txns|
  {
    match e
    case Wait(_) => w
    case Continue(t) => w.(txns := w.txns[i := t])
    case TakeRow(x, t) => w.(rowLocks := w.rowLocks[x := i], txns := w.txns[i := t])
    case TakeKey(k, t) => w.(keyLocks := w.keyLocks[k := i], txns := w.txns[i := t])
    case Stop(o) => End(w, i, w.bank, o)
    case Publish => End(w, i, Published(w.bank, w.txns[i]), Committed(w.txns[i].rows))
  }

  // ---------------------------------------------------------------------------
  // Runs
  // ---------------------------------------------------------------------------

  datatype Move =
    | Begin(req: Request)   // a request arrives
    | Advance(i: Sid)       // a transaction runs its next statement, or stays waiting
    | Cancel(i: Sid)        // a transaction is rolled back from outside

  function EffectOf(w: World, i: Sid): Effect
    requires i < |w.txns|
  {
    Next(w.bank, w.rowLocks, w.keyLocks, i, w.txns[i])
  }

  predicate Live(w: World, i: Sid)
  {
    i < |w.txns| && Unfinished(w.txns[i])
  }

  function Step(w: World, m: Move): World
  {
    match m
    case Begin(r) => if SchemaAccepts(r) then w.(txns := w.txns + [Start(r)]) else w
    case Advance(i) => if Live(w, i) then Perform(w, i, EffectOf(w, i)) else w
    case Cancel(i) => if Live(w, i) then Perform(w, i, Fail(Cancelled)) else w
  }

  /** The move is a commit. */
  predicate Commits(w: World, m: Move)
  {
    m.Advance? && Live(w, m.i) && EffectOf(w, m.i).Publish?
  }

  function Run(w: World, moves: seq<Move>): World
  {
    if |moves| == 0 then w
    else Step(Run(w, moves[..|moves| - 1]), moves[|moves| - 1])
  }

  /** The requests committed by a run, in commit order. */
  function CommitLog(w: World, moves: seq<Move>): seq<Request>
  {
    if |moves| == 0 then []
    else
      var front, last := moves[..|moves| - 1], moves[|moves| - 1];
      var before := Run(w, front);
      CommitLog(w, front) + if Commits(before, last) then [before.txns[last.i].req] else []
  }

  function Quiet(b: Bank): World
  {
    World(b, map[], map[], [])
  }

  // ---------------------------------------------------------------------------
  // One transaction in a run
  // ---------------------------------------------------------------------------

  /** A transaction after a statement with effect e. */
  function AfterEffect(t: Txn, e: Effect): Txn
  {
    match e
    case Wait(_) => t
    case Continue(n) => n
    case TakeRow(_, n) => n
    case TakeKey(_, n) => n
    case Stop(o) => t.(phase := Finished(o))
    case Publish => t.(phase := Finished(Committed(t.rows)))
  }

  lemma PerformReplaces(w: World, i: Sid, e: Effect)
    requires i < |w.txns|
    ensures Perform(w, i, e).txns == w.txns[i := AfterEffect(w.txns[i], e)]
  {
  }

  /** Only a transaction's own moves change it, and they change it by their effect. */
  lemma OwnMovesOnly(w: World, m: Move, i: Sid)
    requires i < |w.txns|
    ensures i < |Step(w, m).txns|
    ensures Step(w, m).txns[i]
         == if m.Advance? && m.i == i && Live(w, i) then AfterEffect(w.txns[i], EffectOf(w, i))
            else if m.Cancel? && m.i == i && Live(w, i) then AfterEffect(w.txns[i], Fail(Cancelled))
            else w.txns[i]
  {
    if m.Advance? && Live(w, m.i) {
      PerformReplaces(w, m.i, EffectOf(w, m.i));
    } else if m.Cancel? && Live(w, m.i) {
      PerformReplaces(w, m.i, Fail(Cancelled));
    }
  }
}
