/** What every interleaving keeps: locks are exclusive, locked copies are fresh, validated
    conditions still hold, reserved keys are new; and every commit is an atomic action. */
module ProtocolInvariant {
  import opened Wrappers
  import opened Ledger
  import opened AtomicBank
  import opened Bookkeeping
  import opened Conservation
  import opened Protocol

  // ---------------------------------------------------------------------------
  // What a transaction holds
  // ---------------------------------------------------------------------------

  function Elems<T>(s: seq<T>): set<T>
  {
    set x | x in s
  }

  /** The account rows a transaction has locked. */
  function Held(t: Txn): set<Uuid>
  {
    match t.phase
    case Locking(found, n) => if n <= |found| then Elems(found[..n]) else {}
    case CheckAndWrite => Elems(Targets(t.req))
    case Insert(_) => Elems(Targets(t.req))
    case WriteAudit => Elems(Targets(t.req))
    case Ready => Elems(Targets(t.req))
    case _ => {}
  }

  /** The idempotency keys a transaction has inserted and not yet committed. */
  function Reserved(t: Txn): set<string>
  {
    if Unfinished(t) then KeysOf(t.rows) else {}
  }

  /** A lock table lists exactly what the transactions hold; so no two hold the same thing. */
  ghost predicate Lists<K>(locks: map<K, Sid>, held: seq<set<K>>)
  {
    && (forall k :: k in locks ==> locks[k] < |held| && k in held[locks[k]])
    && (forall i, k :: 0 <= i < |held| && k in held[i] ==> k in locks && locks[k] == i)
  }

  function HeldBy(txns: seq<Txn>): (held: seq<set<Uuid>>)
    ensures |held| == |txns| && forall i :: 0 <= i < |txns| ==> held[i] == Held(txns[i])
  {
    if |txns| == 0 then [] else HeldBy(txns[..|txns| - 1]) + [Held(txns[|txns| - 1])]
  }

  function ReservedBy(txns: seq<Txn>): (held: seq<set<string>>)
    ensures |held| == |txns| && forall i :: 0 <= i < |txns| ==> held[i] == Reserved(txns[i])
  {
    if |txns| == 0 then [] else ReservedBy(txns[..|txns| - 1]) + [Reserved(txns[|txns| - 1])]
  }

  lemma NewHolder<K>(locks: map<K, Sid>, held: seq<set<K>>)
    requires Lists(locks, held)
    ensures Lists(locks, held + [{}])
  {
  }

  lemma LockTaken<K>(locks: map<K, Sid>, held: seq<set<K>>, i: Sid, k: K)
    requires Lists(locks, held) && i < |held| && (k in locks ==> locks[k] == i)
    ensures Lists(locks[k := i], held[i := held[i] + {k}])
  {
  }

  lemma LocksReleased<K>(locks: map<K, Sid>, held: seq<set<K>>, i: Sid)
    requires Lists(locks, held) && i < |held|
    ensures Lists(Without(locks, i), held[i := {}])
  {
  }

  lemma NeverShared<K>(locks: map<K, Sid>, held: seq<set<K>>, i: Sid, j: Sid)
    requires Lists(locks, held) && i < |held| && j < |held| && i != j
    ensures held[i] !! held[j]
    ensures forall k :: k in held[i] ==> k in locks && locks[k] == i
  {
    forall k | k in held[i]
      ensures k !in held[j]
    {
      assert k in locks && locks[k] == i;
    }
  }

  // ---------------------------------------------------------------------------
  // One transaction against the committed tables
  // ---------------------------------------------------------------------------

  /** The cached copy is the committed row. */
  predicate Fresh(accounts: map<Uuid, Account>, cache: map<Uuid, Account>, x: Uuid)
  {
    x in accounts && x in cache && cache[x] == accounts[x]
  }

  /** The checks made before locking still hold. */
  predicate Passed(accounts: map<Uuid, Account>, r: Request)
  {
    r.Transfer? ==> LocalRefusal(r).None? && SourceRefusal(accounts, r).None?
  }

  /** The rows found by SELECT ... FOR UPDATE: some of the targets, ascending, all of them if
      there are as many. */
  predicate FoundOk(accounts: map<Uuid, Account>, found: seq<Uuid>, ids: seq<Uuid>)
  {
    && 1 <= |found| <= |ids|
    && (|found| == |ids| ==> found == ids)
    && (forall x :: x in found ==> x in ids && x in accounts)
  }

  /** The rules passed on the committed rows, the identity map holds the balances to be written,
      and the rows inserted so far are insertable. */
  ghost predicate Prepared(b: Bank, t: Txn)
  {
    && Loaded(b.accounts, t.req)
    && (t.req.Open? ==> t.req.currency in SUPPORTED_CURRENCIES)
    && Refusal(b.accounts, t.req).None?
    && AgreeOn(t.cache, Moved(b.accounts, t.req), t.req)
    && (forall row :: row in t.rows ==> RowRefusal(b.ledger, row).None?)
  }

  /** What a response says about the committed tables. */
  ghost predicate OutcomeOk(b: Bank, r: Request, o: Outcome)
  {
    match o
    case Committed(rows) =>
      rows == PlannedRows(r)
      && (r.Transfer? ==>
            FindKey(b.ledger, r.key) == Some(rows[0]) && FindKey(b.ledger, Companion(r.key)) == Some(rows[1]))
    case Replayed(out, companion) =>
      r.Transfer? && FindKey(b.ledger, r.key) == Some(out) && FindKey(b.ledger, Companion(r.key)) == Some(companion)
    case Refused(e) =>
      e == PartialTransfer ==>
        r.Transfer? && var s := FindKey(b.ledger, r.key); s.Some? && s.value.kind == TransferIn
  }

  ghost predicate PhaseOk(b: Bank, t: Txn)
  {
    match t.phase
    case Lookup => t.req.Transfer? && t.rows == []
    case LookupCompanion(seen) => t.req.Transfer? && t.rows == [] && FindKey(b.ledger, t.req.key) == Some(seen)
    case ReadSource => t.req.Transfer? && t.rows == [] && LocalRefusal(t.req).None?
    case SelectForUpdate => !t.req.Open? && t.rows == [] && Passed(b.accounts, t.req)
    case Locking(found, n) =>
      && !t.req.Open? && t.rows == [] && Passed(b.accounts, t.req)
      && n <= |found| && FoundOk(b.accounts, found, Targets(t.req))
      && (forall x :: x in found[..n] ==> Fresh(b.accounts, t.cache, x))
    case CheckAndWrite =>
      && t.rows == [] && Passed(b.accounts, t.req)
      && (forall x :: x in Targets(t.req) ==> Fresh(b.accounts, t.cache, x))
    case Insert(n) =>
      && Passed(b.accounts, t.req) && Prepared(b, t)
      && n <= |PlannedRows(t.req)| && t.rows == PlannedRows(t.req)[..n]
    case WriteAudit => Passed(b.accounts, t.req) && Prepared(b, t) && t.rows == PlannedRows(t.req)
    case Ready =>
      && Passed(b.accounts, t.req) && Prepared(b, t)
      && t.rows == PlannedRows(t.req) && t.audits == PlannedAudits(t.req)
    case Finished(o) => OutcomeOk(b, t.req, o)
  }

  ghost predicate TxnOk(b: Bank, t: Txn)
  {
    SchemaAccepts(t.req) && PhaseOk(b, t)
  }

  ghost predicate AllOk(b: Bank, txns: seq<Txn>)
  {
    forall i :: 0 <= i < |txns| ==> TxnOk(b, txns[i])
  }

  ghost predicate Inv(w: World)
  {
    && BankOk(w.bank)
    && AllOk(w.bank, w.txns)
    && Lists(w.rowLocks, HeldBy(w.txns))
    && Lists(w.keyLocks, ReservedBy(w.txns))
  }

  // ---------------------------------------------------------------------------
  // What each effect guarantees
  // ---------------------------------------------------------------------------

  /** The same request, still unfinished and in order. */
  ghost predicate Onward(b: Bank, t: Txn, n: Txn)
  {
    TxnOk(b, n) && n.req == t.req && Unfinished(n)
  }

  ghost predicate EffectOk(b: Bank, t: Txn, e: Effect)
  {
    match e
    case Wait(_) => true
    case Continue(n) => Onward(b, t, n) && Held(n) == Held(t) && Reserved(n) == Reserved(t)
    case TakeRow(x, n) => Onward(b, t, n) && Held(n) == Held(t) + {x} && Reserved(n) == Reserved(t)
    case TakeKey(k, n) => Onward(b, t, n) && Held(n) == Held(t) && Reserved(n) == Reserved(t) + {k}
    case Stop(o) => OutcomeOk(b, t.req, o) && !o.Committed?
    case Publish => t.phase.Ready? && Accepts(b, t.req) && Published(b, t) == Apply(b, t.req).0
  }

  lemma LookupOk(b: Bank, t: Txn)
    requires TxnOk(b, t) && t.phase.Lookup?
    ensures EffectOk(b, t, NextLookup(b, t))
  {
  }

  lemma CompanionOk(b: Bank, t: Txn)
    requires BankOk(b) && TxnOk(b, t) && t.phase.LookupCompanion?
    ensures EffectOk(b, t, NextCompanion(b, t))
  {
    ReplayIsGenuine(b, t.req.key);
    assert Balanced(b.ledger, t.phase.seen);
  }

  lemma ReadSourceOk(b: Bank, t: Txn)
    requires TxnOk(b, t) && t.phase.ReadSource?
    ensures EffectOk(b, t, NextReadSource(b, t))
  {
  }

  lemma SelectOk(b: Bank, t: Txn)
    requires TxnOk(b, t) && t.phase.SelectForUpdate?
    ensures EffectOk(b, t, NextSelect(b, t))
  {
    var ids := Targets(t.req);
    assert Existing(b.accounts, ids[1..]) == if |ids| == 2 && ids[1] in b.accounts then [ids[1]] else [] by {
      if |ids| == 2 { assert ids[1..][1..] == []; }
    }
    if |Existing(b.accounts, ids)| > 0 {
      assert Elems(Existing(b.accounts, ids)[..0]) == {};
    }
  }

  lemma RowLocked(b: Bank, t: Txn, found: seq<Uuid>, n: nat, x: Uuid)
    requires TxnOk(b, t) && t.phase == Locking(found, n) && n < |found| && x == found[n]
    ensures x in b.accounts
    ensures var after := t.(phase := Locking(found, n + 1), cache := t.cache[x := b.accounts[x]]);
            TxnOk(b, after) && Held(after) == Held(t) + {x}
  {
    assert found[..n + 1] == found[..n] + [x];
  }

  lemma LockOk(b: Bank, locks: map<Uuid, Sid>, i: Sid, t: Txn)
    requires TxnOk(b, t) && t.phase.Locking?
    ensures EffectOk(b, t, NextLock(b, locks, i, t))
  {
    var found, n := t.phase.found, t.phase.next;
    if n == |found| {
      assert found[..n] == found;
    } else {
      RowLocked(b, t, found, n, found[n]);
    }
  }

  /** Fresh copies of all the targets are what the rules look at. */
  lemma FreshAgrees(accounts: map<Uuid, Account>, cache: map<Uuid, Account>, r: Request)
    requires forall x :: x in Targets(r) ==> Fresh(accounts, cache, x)
    ensures AgreeOn(cache, accounts, r)
  {
    if r.Transfer? {
      assert r.source in Targets(r) && r.target in Targets(r);
    } else if !r.Open? {
      assert r.account in Targets(r);
    }
  }

  /** Rules and new balances depend only on the accounts the request works on. */
  lemma SameWhereItWorks(a: map<Uuid, Account>, c: map<Uuid, Account>, r: Request)
    requires AgreeOn(a, c, r) && (r.Transfer? ==> r.source != r.target)
    ensures Refusal(a, r) == Refusal(c, r) && AgreeOn(Moved(a, r), Moved(c, r), r)
  {
  }

  lemma CheckOk(b: Bank, t: Txn)
    requires TxnOk(b, t) && t.phase.CheckAndWrite?
    ensures EffectOk(b, t, NextCheck(b, t))
  {
    FreshAgrees(b.accounts, t.cache, t.req);
    SameWhereItWorks(t.cache, b.accounts, t.req);
    assert PlannedRows(t.req)[..0] == [];
  }

  lemma RowInserted(b: Bank, t: Txn, n: nat, row: Row)
    requires TxnOk(b, t) && t.phase == Insert(n) && n < |PlannedRows(t.req)|
    requires row == PlannedRows(t.req)[n] && RowRefusal(b.ledger, row).None?
    ensures TxnOk(b, t.(phase := Insert(n + 1), rows := t.rows + [row]))
  {
    assert PlannedRows(t.req)[..n + 1] == PlannedRows(t.req)[..n] + [row];
  }

  lemma KeysAppend(rows: seq<Row>, row: Row)
    ensures KeysOf(rows + [row]) == KeysOf(rows) + if row.key.Some? then {row.key.value} else {}
  {
  }

  lemma InsertOk(b: Bank, locks: map<string, Sid>, i: Sid, t: Txn)
    requires TxnOk(b, t) && t.phase.Insert?
    ensures EffectOk(b, t, NextInsert(b, locks, i, t))
  {
    var n, rows := t.phase.next, PlannedRows(t.req);
    if n == |rows| {
      assert rows[..n] == rows;
    } else if RowRefusal(b.ledger, rows[n]).None? {
      RowInserted(b, t, n, rows[n]);
      KeysAppend(t.rows, rows[n]);
    }
  }

  /** The absolute writes of a prepared transaction are the relative moves of the atomic action. */
  lemma WritesAreMoves(accounts: map<Uuid, Account>, t: Txn)
    requires Loaded(accounts, t.req) && (t.req.Transfer? ==> t.req.source != t.req.target)
    requires AgreeOn(t.cache, Moved(accounts, t.req), t.req)
    ensures Written(accounts, t) == Moved(accounts, t.req)
  {
  }

  lemma ReadyOk(b: Bank, t: Txn)
    requires TxnOk(b, t) && t.phase.Ready?
    requires t.req.Open? ==> t.req.account !in b.accounts
    ensures EffectOk(b, t, Publish)
  {
    WritesAreMoves(b.accounts, t);
    var rows := PlannedRows(t.req);
    if t.req.Transfer? {
      assert rows[0] in t.rows && rows[1] in t.rows;
    } else if t.req.Deposit? {
      assert rows[0] in t.rows;
    }
  }

  /** Whatever statement comes next, its effect is in order. */
  lemma NextOk(b: Bank, rowLocks: map<Uuid, Sid>, keyLocks: map<string, Sid>, i: Sid, t: Txn)
    requires BankOk(b) && TxnOk(b, t) && Unfinished(t)
    ensures EffectOk(b, t, Next(b, rowLocks, keyLocks, i, t))
  {
    match t.phase
    case Lookup => LookupOk(b, t);
    case LookupCompanion(_) => CompanionOk(b, t);
    case ReadSource => ReadSourceOk(b, t);
    case SelectForUpdate => SelectOk(b, t);
    case Locking(_, _) => LockOk(b, rowLocks, i, t);
    case CheckAndWrite => CheckOk(b, t);
    case Insert(_) => InsertOk(b, keyLocks, i, t);
    case WriteAudit =>
    case Ready =>
      if !(t.req.Open? && t.req.account in b.accounts) { ReadyOk(b, t); }
  }

  // ---------------------------------------------------------------------------
  // What the others see
  // ---------------------------------------------------------------------------

  /** The tables moved on without touching what t holds: its accounts are as they were, and the
      new rows' keys are new and not its own. */
  ghost predicate LeavesAlone(b: Bank, more: seq<Row>, after: Bank, t: Txn)
  {
    && Extends(b.accounts, after.accounts)
    && (forall x :: x in Held(t) && x in b.accounts ==> after.accounts[x] == b.accounts[x])
    && after.ledger == b.ledger + more
    && KeysOf(more) !! Reserved(t)
    && (forall r :: r in more && r.key.Some? ==> FindKey(b.ledger, r.key.value).None?)
  }

  lemma OutcomeKept(b: Bank, more: seq<Row>, after: Bank, r: Request, o: Outcome)
    requires OutcomeOk(b, r, o) && after.ledger == b.ledger + more
    requires forall x :: x in more && x.key.Some? ==> FindKey(b.ledger, x.key.value).None?
    ensures OutcomeOk(after, r, o)
  {
    if r.Transfer? {
      if FindKey(b.ledger, r.key).Some? { FindKeyKeeps(b.ledger, more, r.key); }
      if FindKey(b.ledger, Companion(r.key)).Some? { FindKeyKeeps(b.ledger, more, Companion(r.key)); }
    }
  }

  lemma PreparedKept(b: Bank, more: seq<Row>, after: Bank, t: Txn)
    requires Prepared(b, t) && LeavesAlone(b, more, after, t) && Unfinished(t)
    requires t.req.Transfer? ==> t.req.source != t.req.target
    requires Held(t) == Elems(Targets(t.req))
    ensures Prepared(after, t)
  {
    forall x | x in Targets(t.req)
      ensures Fresh(after.accounts, b.accounts, x)
    {
      assert x in Held(t);
    }
    FreshAgrees(after.accounts, b.accounts, t.req);
    SameWhereItWorks(b.accounts, after.accounts, t.req);
    forall row | row in t.rows
      ensures RowRefusal(after.ledger, row).None?
    {
      if row.key.Some? {
        assert row.key.value in Reserved(t);
        AbsentKey(b.ledger, more, row.key.value);
      }
    }
  }

  /** What a transaction relies on survives everything another one may commit. */
  lemma TxnKept(b: Bank, more: seq<Row>, after: Bank, t: Txn)
    requires TxnOk(b, t) && LeavesAlone(b, more, after, t)
    ensures TxnOk(after, t)
  {
    match t.phase
    case Lookup =>
    case LookupCompanion(_) => FindKeyKeeps(b.ledger, more, t.req.key);
    case ReadSource =>
    case SelectForUpdate =>
    case Locking(found, n) =>
      forall x | x in found[..n]
        ensures Fresh(after.accounts, t.cache, x)
      {
        assert x in Held(t);
      }
    case CheckAndWrite =>
      forall x | x in Targets(t.req)
        ensures Fresh(after.accounts, t.cache, x)
      {
        assert x in Held(t);
      }
    case Insert(_) => PreparedKept(b, more, after, t);
    case WriteAudit => PreparedKept(b, more, after, t);
    case Ready => PreparedKept(b, more, after, t);
    case Finished(o) => OutcomeKept(b, more, after, t.req, o);
  }

  // ---------------------------------------------------------------------------
  // Every step keeps the invariant
  // ---------------------------------------------------------------------------

  /** One transaction is replaced: the others' claims and holdings are as before. */
  lemma OneReplaced(b: Bank, txns: seq<Txn>, i: Sid, n: Txn)
    requires AllOk(b, txns) && i < |txns| && TxnOk(b, n)
    ensures AllOk(b, txns[i := n])
    ensures HeldBy(txns[i := n]) == HeldBy(txns)[i := Held(n)]
    ensures ReservedBy(txns[i := n]) == ReservedBy(txns)[i := Reserved(n)]
  {
    var all := txns[i := n];
    forall j | 0 <= j < |all|
      ensures TxnOk(b, all[j])
    {
      if j != i { assert TxnOk(b, txns[j]); }
    }
  }

  lemma OneStarted(b: Bank, txns: seq<Txn>, n: Txn)
    requires AllOk(b, txns) && TxnOk(b, n)
    ensures AllOk(b, txns + [n])
    ensures HeldBy(txns + [n]) == HeldBy(txns) + [Held(n)]
    ensures ReservedBy(txns + [n]) == ReservedBy(txns) + [Reserved(n)]
  {
    assert (txns + [n])[..|txns|] == txns;
    forall j | 0 <= j < |txns + [n]|
      ensures TxnOk(b, (txns + [n])[j])
    {
      if j < |txns| { assert TxnOk(b, txns[j]); }
    }
  }

  lemma StartOk(b: Bank, r: Request)
    requires SchemaAccepts(r)
    ensures TxnOk(b, Start(r)) && Held(Start(r)) == {} && Reserved(Start(r)) == {}
  {
    if r.Open? { assert Elems(Targets(r)) == {}; }
  }

  lemma BeginKeeps(w: World, r: Request)
    requires Inv(w) && SchemaAccepts(r)
    ensures Inv(w.(txns := w.txns + [Start(r)]))
  {
    StartOk(w.bank, r);
    OneStarted(w.bank, w.txns, Start(r));
    NewHolder(w.rowLocks, HeldBy(w.txns));
    NewHolder(w.keyLocks, ReservedBy(w.txns));
  }

  lemma ContinueKeeps(w: World, i: Sid, n: Txn)
    requires Inv(w) && i < |w.txns| && EffectOk(w.bank, w.txns[i], Continue(n))
    ensures Inv(w.(txns := w.txns[i := n]))
  {
    OneReplaced(w.bank, w.txns, i, n);
    assert HeldBy(w.txns)[i := Held(n)] == HeldBy(w.txns);
    assert ReservedBy(w.txns)[i := Reserved(n)] == ReservedBy(w.txns);
  }

  lemma TakeRowKeeps(w: World, i: Sid, x: Uuid, n: Txn)
    requires Inv(w) && i < |w.txns| && EffectOk(w.bank, w.txns[i], TakeRow(x, n))
    requires x in w.rowLocks ==> w.rowLocks[x] == i
    ensures Inv(w.(rowLocks := w.rowLocks[x := i], txns := w.txns[i := n]))
  {
    OneReplaced(w.bank, w.txns, i, n);
    LockTaken(w.rowLocks, HeldBy(w.txns), i, x);
    assert ReservedBy(w.txns)[i := Reserved(n)] == ReservedBy(w.txns);
  }

  lemma TakeKeyKeeps(w: World, i: Sid, k: string, n: Txn)
    requires Inv(w) && i < |w.txns| && EffectOk(w.bank, w.txns[i], TakeKey(k, n))
    requires k in w.keyLocks ==> w.keyLocks[k] == i
    ensures Inv(w.(keyLocks := w.keyLocks[k := i], txns := w.txns[i := n]))
  {
    OneReplaced(w.bank, w.txns, i, n);
    LockTaken(w.keyLocks, ReservedBy(w.txns), i, k);
    assert HeldBy(w.txns)[i := Held(n)] == HeldBy(w.txns);
  }

  lemma OthersKept(w: World, i: Sid, after: Bank, more: seq<Row>, n: Txn)
    requires AllOk(w.bank, w.txns) && i < |w.txns| && TxnOk(after, n)
    requires forall j :: 0 <= j < |w.txns| && j != i ==> LeavesAlone(w.bank, more, after, w.txns[j])
    ensures AllOk(after, w.txns[i := n])
  {
    var all := w.txns[i := n];
    forall j | 0 <= j < |all|
      ensures TxnOk(after, all[j])
    {
      if j != i { TxnKept(w.bank, more, after, w.txns[j]); }
    }
  }

  lemma HoldingsReplaced(txns: seq<Txn>, i: Sid, n: Txn)
    requires i < |txns|
    ensures HeldBy(txns[i := n]) == HeldBy(txns)[i := Held(n)]
    ensures ReservedBy(txns[i := n]) == ReservedBy(txns)[i := Reserved(n)]
  {
  }

  lemma EndKeeps(w: World, i: Sid, after: Bank, more: seq<Row>, o: Outcome)
    requires Inv(w) && i < |w.txns| && BankOk(after) && OutcomeOk(after, w.txns[i].req, o)
    requires forall j :: 0 <= j < |w.txns| && j != i ==> LeavesAlone(w.bank, more, after, w.txns[j])
    ensures Inv(End(w, i, after, o))
  {
    var n := w.txns[i].(phase := Finished(o));
    OthersKept(w, i, after, more, n);
    HoldingsReplaced(w.txns, i, n);
    LocksReleased(w.rowLocks, HeldBy(w.txns), i);
    LocksReleased(w.keyLocks, ReservedBy(w.txns), i);
  }

  lemma NothingMoved(b: Bank, t: Txn)
    ensures LeavesAlone(b, [], b, t)
  {
    assert b.ledger + [] == b.ledger;
  }

  /** Accounts a request does not work on are not moved. */
  lemma MovedElsewhere(accounts: map<Uuid, Account>, r: Request, x: Uuid)
    requires Loaded(accounts, r) && (r.Open? ==> r.account !in accounts)
    requires x in accounts && x !in Targets(r)
    ensures x in Moved(accounts, r) && Moved(accounts, r)[x] == accounts[x]
  {
    if r.Transfer? {
      assert r.source in Targets(r) && r.target in Targets(r);
    } else if !r.Open? {
      assert r.account in Targets(r);
    }
  }

  /** A commit touches nothing another transaction holds. */
  lemma CommitLeavesAlone(w: World, i: Sid, j: Sid)
    requires Inv(w) && i < |w.txns| && j < |w.txns| && i != j
    requires w.txns[i].phase.Ready? && Accepts(w.bank, w.txns[i].req)
    ensures LeavesAlone(w.bank, w.txns[i].rows, Apply(w.bank, w.txns[i].req).0, w.txns[j])
  {
    var t, other, r := w.txns[i], w.txns[j], w.txns[i].req;
    AcceptedMeans(w.bank, r);
    MovedExtends(w.bank.accounts, r);
    NeverShared(w.rowLocks, HeldBy(w.txns), i, j);
    NeverShared(w.keyLocks, ReservedBy(w.txns), i, j);
    forall x | x in Held(other) && x in w.bank.accounts
      ensures Moved(w.bank.accounts, r)[x] == w.bank.accounts[x]
    {
      MovedElsewhere(w.bank.accounts, r, x);
    }
  }

  lemma PublishKeeps(w: World, i: Sid)
    requires Inv(w) && i < |w.txns| && EffectOk(w.bank, w.txns[i], Publish)
    ensures Inv(Perform(w, i, Publish))
  {
    var t, r := w.txns[i], w.txns[i].req;
    var after := Apply(w.bank, r).0;
    ApplyKeepsBankOk(w.bank, r);
    if r.Transfer? { CommitStoresKeys(w.bank, r); }
    forall j | 0 <= j < |w.txns| && j != i
      ensures LeavesAlone(w.bank, t.rows, after, w.txns[j])
    {
      CommitLeavesAlone(w, i, j);
    }
    EndKeeps(w, i, after, t.rows, Committed(t.rows));
  }

  lemma StopKeeps(w: World, i: Sid, o: Outcome)
    requires Inv(w) && i < |w.txns| && OutcomeOk(w.bank, w.txns[i].req, o)
    ensures Inv(Perform(w, i, Stop(o)))
  {
    forall j | 0 <= j < |w.txns| && j != i
      ensures LeavesAlone(w.bank, [], w.bank, w.txns[j])
    {
      NothingMoved(w.bank, w.txns[j]);
    }
    EndKeeps(w, i, w.bank, [], o);
  }

  /** A lock or key is only taken when it is free or already one's own. */
  lemma TakenWasFree(w: World, i: Sid)
    requires i < |w.txns|
    ensures EffectOf(w, i).TakeRow? ==> EffectOf(w, i).row in w.rowLocks ==> w.rowLocks[EffectOf(w, i).row] == i
    ensures EffectOf(w, i).TakeKey? ==> EffectOf(w, i).key in w.keyLocks ==> w.keyLocks[EffectOf(w, i).key] == i
  {
  }

  lemma PerformKeeps(w: World, i: Sid, e: Effect)
    requires Inv(w) && Live(w, i) && EffectOk(w.bank, w.txns[i], e)
    requires e.TakeRow? && e.row in w.rowLocks ==> w.rowLocks[e.row] == i
    requires e.TakeKey? && e.key in w.keyLocks ==> w.keyLocks[e.key] == i
    ensures Inv(Perform(w, i, e))
  {
    match e
    case Wait(_) =>
    case Continue(n) => ContinueKeeps(w, i, n);
    case TakeRow(x, n) => TakeRowKeeps(w, i, x, n);
    case TakeKey(k, n) => TakeKeyKeeps(w, i, k, n);
    case Stop(o) => StopKeeps(w, i, o);
    case Publish => PublishKeeps(w, i);
  }

  lemma EffectInOrder(w: World, i: Sid)
    requires Inv(w) && Live(w, i)
    ensures EffectOk(w.bank, w.txns[i], EffectOf(w, i))
  {
    NextOk(w.bank, w.rowLocks, w.keyLocks, i, w.txns[i]);
  }

  /** The invariant survives every move of every request. */
  lemma StepKeepsInv(w: World, m: Move)
    requires Inv(w)
    ensures Inv(Step(w, m))
  {
    match m
    case Begin(r) => if SchemaAccepts(r) { BeginKeeps(w, r); }
    case Advance(i) =>
      if Live(w, i) {
        EffectInOrder(w, i);
        TakenWasFree(w, i);
        PerformKeeps(w, i, EffectOf(w, i));
      }
    case Cancel(i) => if Live(w, i) { StopKeeps(w, i, Refused(Cancelled)); }
  }

  /** Refinement, one step: a commit is the atomic action of its request on the committed
      tables; every other move leaves them as they were. */
  lemma StepRefines(w: World, m: Move)
    requires Inv(w)
    ensures Commits(w, m) ==>
              Accepts(w.bank, w.txns[m.i].req) && Step(w, m).bank == Apply(w.bank, w.txns[m.i].req).0
    ensures !Commits(w, m) ==> Step(w, m).bank == w.bank
  {
    if m.Advance? && Live(w, m.i) {
      EffectInOrder(w, m.i);
    }
  }
}
