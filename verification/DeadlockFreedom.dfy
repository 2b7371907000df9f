/** Waiting never closes into a circle, some unfinished request can always move, and every
    move by a request brings the whole run closer to completion. */
module DeadlockFreedom {
  import opened Ledger
  import opened AtomicBank
  import opened Protocol
  import opened ProtocolInvariant
  import opened Serializability

  /** Transaction i waits for transaction j. */
  predicate WaitsFor(w: World, i: Sid, j: Sid)
  {
    Live(w, i) && EffectOf(w, i) == Wait(j)
  }

  predicate Waiting(w: World, i: Sid)
  {
    Live(w, i) && EffectOf(w, i).Wait?
  }

  /** What a waiting transaction waits for: a row, placed by its id, or a key, placed above
      every row by its length. */
  function Rank(t: Txn): (r: nat)
  {
    match t.phase
    case Locking(found, n) => if n < |found| then found[n] else 0
    case Insert(n) =>
      if n < |PlannedRows(t.req)| && PlannedRows(t.req)[n].key.Some?
      then UUID_LIMIT + |PlannedRows(t.req)[n].key.value| else 0
    case _ => 0
  }

  lemma RowWait(w: World, i: Sid, j: Sid)
    requires Inv(w) && WaitsFor(w, i, j) && w.txns[i].phase.Locking?
    ensures Live(w, j) && Rank(w.txns[i]) in Held(w.txns[j]) && Rank(w.txns[i]) < UUID_LIMIT
  {
    assert TxnOk(w.bank, w.txns[i]);
    var x := w.txns[i].phase.found[w.txns[i].phase.next];
    assert x in w.rowLocks && w.rowLocks[x] == j;
    assert x in HeldBy(w.txns)[j];
  }

  lemma KeyWait(w: World, i: Sid, j: Sid)
    requires Inv(w) && WaitsFor(w, i, j) && !w.txns[i].phase.Locking?
    ensures w.txns[i].phase.Insert? && w.txns[i].phase.next < |PlannedRows(w.txns[i].req)|
    ensures var row := PlannedRows(w.txns[i].req)[w.txns[i].phase.next];
            && row.key.Some? && |row.key.value| <= KEY_WIDTH && Rank(w.txns[i]) == UUID_LIMIT + |row.key.value|
            && j < |w.txns| && row.key.value in Reserved(w.txns[j])
    ensures Live(w, j)
  {
    var row := PlannedRows(w.txns[i].req)[w.txns[i].phase.next];
    assert row.key.value in w.keyLocks && w.keyLocks[row.key.value] == j;
    assert row.key.value in ReservedBy(w.txns)[j];
  }

  /** Rows are locked in ascending order: a transaction still locking holds only smaller rows
      than the one it asks for. */
  lemma HeldBelow(b: Bank, t: Txn, x: Uuid)
    requires TxnOk(b, t) && t.phase.Locking? && t.phase.next < |t.phase.found| && x in Held(t)
    ensures x < Rank(t)
  {
    var found, n := t.phase.found, t.phase.next;
    assert n >= 1 && |found| == 2;
    assert found == Targets(t.req);
    assert x == found[0];
  }

  /** A transaction that has reserved a key and waits for another one waits for its companion
      key, which is longer. */
  lemma ReservedShorter(b: Bank, t: Txn, k: string)
    requires TxnOk(b, t) && t.phase.Insert? && k in Reserved(t)
    requires t.phase.next < |PlannedRows(t.req)| && PlannedRows(t.req)[t.phase.next].key.Some?
    ensures UUID_LIMIT + |k| < Rank(t)
  {
    assert t.req.Transfer?;
    assert t.phase.next == 1 && t.rows == [PlannedRows(t.req)[0]];
  }

  lemma RanksAscendFromRow(w: World, i: Sid, j: Sid, k: Sid)
    requires Inv(w) && WaitsFor(w, i, j) && WaitsFor(w, j, k) && w.txns[i].phase.Locking?
    ensures Rank(w.txns[i]) < Rank(w.txns[j])
  {
    RowWait(w, i, j);
    if w.txns[j].phase.Locking? {
      assert TxnOk(w.bank, w.txns[j]);
      HeldBelow(w.bank, w.txns[j], Rank(w.txns[i]));
    } else {
      KeyWait(w, j, k);
    }
  }

  lemma RanksAscendFromKey(w: World, i: Sid, j: Sid, k: Sid)
    requires Inv(w) && WaitsFor(w, i, j) && WaitsFor(w, j, k) && !w.txns[i].phase.Locking?
    ensures Rank(w.txns[i]) < Rank(w.txns[j])
  {
    KeyWait(w, i, j);
    assert TxnOk(w.bank, w.txns[j]);
    if !w.txns[j].phase.Locking? {
      KeyWait(w, j, k);
      ReservedShorter(w.bank, w.txns[j], PlannedRows(w.txns[i].req)[w.txns[i].phase.next].key.value);
    }
  }

  /** Along a chain of waits the ranks strictly ascend. */
  lemma RanksAscend(w: World, i: Sid, j: Sid, k: Sid)
    requires Inv(w) && WaitsFor(w, i, j) && WaitsFor(w, j, k)
    ensures Rank(w.txns[i]) < Rank(w.txns[j])
  {
    if w.txns[i].phase.Locking? { RanksAscendFromRow(w, i, j, k); } else { RanksAscendFromKey(w, i, j, k); }
  }

  /** Each member of the list waits for the next. */
  predicate WaitChain(w: World, c: seq<Sid>)
  {
    forall p :: 0 <= p < |c| - 1 ==> WaitsFor(w, c[p], c[p + 1])
  }

  lemma {:induction false} ChainAscends(w: World, c: seq<Sid>)
    requires Inv(w) && |c| >= 2 && WaitChain(w, c) && Waiting(w, c[|c| - 1])
    ensures c[0] < |w.txns| && c[|c| - 1] < |w.txns| && Rank(w.txns[c[0]]) < Rank(w.txns[c[|c| - 1]])
  {
    var n := |c| - 1;
    assert WaitsFor(w, c[n - 1], c[n - 1 + 1]);
    RanksAscend(w, c[n - 1], c[n], EffectOf(w, c[n]).holder);
    if n >= 2 {
      assert WaitChain(w, c[..n]) by {
        forall p | 0 <= p < n - 1
          ensures WaitsFor(w, c[..n][p], c[..n][p + 1])
        {
          assert WaitsFor(w, c[p], c[p + 1]);
        }
      }
      ChainAscends(w, c[..n]);
    }
  }

  /** A chain of waits never leads back to its start, through row locks, unique-index waits, or
      both. */
  lemma NoWaitCycle(w: World, c: seq<Sid>)
    requires Inv(w) && |c| >= 2 && WaitChain(w, c)
    ensures c[0] != c[|c| - 1]
  {
    assert WaitsFor(w, c[0], c[0 + 1]);
    if c[0] == c[|c| - 1] {
      ChainAscends(w, c);
    }
  }

  lemma RankBound(w: World, i: Sid)
    requires Inv(w) && Waiting(w, i)
    ensures Rank(w.txns[i]) <= UUID_LIMIT + KEY_WIDTH
    ensures Live(w, EffectOf(w, i).holder)
  {
    var j := EffectOf(w, i).holder;
    if w.txns[i].phase.Locking? { RowWait(w, i, j); } else { KeyWait(w, i, j); }
  }

  /** Progress: follow the waits from any unfinished transaction and one is found that can
      execute its next statement. */
  lemma {:induction false} SomeoneCanMove(w: World, i: Sid) returns (j: Sid)
    requires Inv(w) && Live(w, i)
    ensures Live(w, j) && !Waiting(w, j)
    decreases if Waiting(w, i) then 1 + UUID_LIMIT + KEY_WIDTH - Rank(w.txns[i]) else 0
  {
    if Waiting(w, i) {
      RankBound(w, i);
      var h := EffectOf(w, i).holder;
      if Waiting(w, h) {
        RankBound(w, h);
        RanksAscend(w, i, h, EffectOf(w, h).holder);
      }
      j := SomeoneCanMove(w, h);
    } else {
      j := i;
    }
  }

  // ---------------------------------------------------------------------------
  // Completion
  // ---------------------------------------------------------------------------

  /** Statements a transaction can still execute. */
  function Remaining(t: Txn): nat
  {
    match t.phase
    case Lookup => 14
    case LookupCompanion(_) => 1
    case ReadSource => 13
    case SelectForUpdate => 12
    case Locking(found, n) => 9 + if n <= |found| <= 2 then |found| - n else 0
    case CheckAndWrite => 8
    case Insert(n) => 3 + if n <= |PlannedRows(t.req)| then |PlannedRows(t.req)| - n else 0
    case WriteAudit => 2
    case Ready => 1
    case Finished(_) => 0
  }

  function TotalRemaining(txns: seq<Txn>): nat
  {
    if |txns| == 0 then 0 else TotalRemaining(txns[..|txns| - 1]) + Remaining(txns[|txns| - 1])
  }

  lemma {:induction false} TotalReplaced(txns: seq<Txn>, i: Sid, n: Txn)
    requires i < |txns|
    ensures TotalRemaining(txns[i := n]) == TotalRemaining(txns) - Remaining(txns[i]) + Remaining(n)
  {
    var last := |txns| - 1;
    if i < last {
      TotalReplaced(txns[..last], i, n);
      assert txns[i := n][..last] == txns[..last][i := n];
    } else {
      assert txns[i := n][..last] == txns[..last];
    }
  }

  /** Executing a statement leaves strictly fewer to execute. */
  lemma StatementShortens(b: Bank, rowLocks: map<Uuid, Sid>, keyLocks: map<string, Sid>, i: Sid, t: Txn)
    requires TxnOk(b, t) && Unfinished(t)
    ensures var e := Next(b, rowLocks, keyLocks, i, t); e.Wait? || Remaining(AfterEffect(t, e)) < Remaining(t)
  {
  }

  lemma MoveShortens(w: World, i: Sid)
    requires Inv(w) && Live(w, i) && !Waiting(w, i)
    ensures TotalRemaining(Step(w, Advance(i)).txns) < TotalRemaining(w.txns)
    ensures |Step(w, Advance(i)).txns| == |w.txns|
  {
    assert TxnOk(w.bank, w.txns[i]);
    StatementShortens(w.bank, w.rowLocks, w.keyLocks, i, w.txns[i]);
    PerformReplaces(w, i, EffectOf(w, i));
    TotalReplaced(w.txns, i, AfterEffect(w.txns[i], EffectOf(w, i)));
  }

  predicate AllFinished(w: World)
  {
    forall i :: 0 <= i < |w.txns| ==> !Unfinished(w.txns[i])
  }

  lemma {:induction false} RunAfter(w: World, one: Move, rest: seq<Move>)
    ensures Run(w, [one] + rest) == Run(Step(w, one), rest)
  {
    if |rest| == 0 {
      assert [one] + rest == [one];
      assert [one][..0] == [];
    } else {
      var n := |rest| - 1;
      RunAfter(w, one, rest[..n]);
      assert ([one] + rest)[..|[one] + rest| - 1] == [one] + rest[..n];
    }
  }

  /** From any reachable state the requests in flight can all be driven to completion, by no
      more statements than the total that remained, without cancelling any. */
  lemma {:induction false} EveryoneCanFinish(w: World) returns (moves: seq<Move>)
    requires Inv(w)
    ensures |moves| <= TotalRemaining(w.txns) && AllFinished(Run(w, moves))
    ensures forall m :: m in moves ==> m.Advance?
    decreases TotalRemaining(w.txns)
  {
    if AllFinished(w) {
      moves := [];
    } else {
      var i :| 0 <= i < |w.txns| && Unfinished(w.txns[i]);
      var j := SomeoneCanMove(w, i);
      MoveShortens(w, j);
      StepKeepsInv(w, Advance(j));
      var rest := EveryoneCanFinish(Step(w, Advance(j)));
      RunAfter(w, Advance(j), rest);
      moves := [Advance(j)] + rest;
    }
  }

  /** Deadlock freedom: in no reachable state of any run do requests wait in a circle. */
  lemma NoRunDeadlocks(moves: seq<Move>, c: seq<Sid>)
    requires |c| >= 2 && WaitChain(Reached(moves), c)
    ensures c[0] != c[|c| - 1]
  {
    ReachedInv(moves);
    NoWaitCycle(Reached(moves), c);
  }

  /** And from every reachable state all requests in flight can complete, none cancelled. */
  lemma EveryRunCanFinish(moves: seq<Move>) returns (more: seq<Move>)
    ensures AllFinished(Run(Reached(moves), more)) && |more| <= TotalRemaining(Reached(moves).txns)
    ensures forall m :: m in more ==> m.Advance?
  {
    ReachedInv(moves);
    more := EveryoneCanFinish(Reached(moves));
  }

  // ---------------------------------------------------------------------------
  // Every schedule
  // ---------------------------------------------------------------------------

  // The most statements one request executes.
  const STATEMENTS: nat := 14

  /** The move executes a statement: it does not wait, and its transaction has not finished. */
  predicate Executes(w: World, m: Move)
  {
    m.Advance? && Live(w, m.i) && !Waiting(w, m.i)
  }

  /** Statements executed by a run. */
  function Executions(w: World, moves: seq<Move>): nat
  {
    if |moves| == 0 then 0
    else
      var front := moves[..|moves| - 1];
      Executions(w, front) + if Executes(Run(w, front), moves[|moves| - 1]) then 1 else 0
  }

  /** Requests that arrive during a run. */
  function Arrivals(moves: seq<Move>): nat
  {
    if |moves| == 0 then 0
    else Arrivals(moves[..|moves| - 1]) + if moves[|moves| - 1].Begin? then 1 else 0
  }

  lemma ArrivalSpends(txns: seq<Txn>, r: Request)
    ensures TotalRemaining(txns + [Start(r)]) <= TotalRemaining(txns) + STATEMENTS
  {
    assert (txns + [Start(r)])[..|txns|] == txns;
  }

  lemma CancelSpends(w: World, i: Sid)
    requires Live(w, i)
    ensures TotalRemaining(Step(w, Cancel(i)).txns) <= TotalRemaining(w.txns)
  {
    TotalReplaced(w.txns, i, w.txns[i].(phase := Finished(Refused(Cancelled))));
  }

  lemma StepSpends(w: World, m: Move)
    requires Inv(w)
    ensures TotalRemaining(Step(w, m).txns) + (if Executes(w, m) then 1 else 0)
         <= TotalRemaining(w.txns) + (if m.Begin? then STATEMENTS else 0)
  {
    match m
    case Begin(r) => ArrivalSpends(w.txns, r);
    case Advance(i) => if Executes(w, m) { MoveShortens(w, i); }
    case Cancel(i) => if Live(w, i) { CancelSpends(w, i); }
  }

  /** Whatever the schedule, statements cannot go on being executed: a run executes no more of
      them than remained at its start and than the requests arriving meanwhile bring. */
  lemma {:induction false} EveryScheduleIsBounded(w: World, moves: seq<Move>)
    requires Inv(w)
    ensures Executions(w, moves) + TotalRemaining(Run(w, moves).txns)
         <= TotalRemaining(w.txns) + STATEMENTS * Arrivals(moves)
  {
    if |moves| > 0 {
      var front := moves[..|moves| - 1];
      EveryScheduleIsBounded(w, front);
      RunKeepsInv(w, front);
      StepSpends(Run(w, front), moves[|moves| - 1]);
    }
  }

  /** From any reachable state, any schedule of the requests in flight executes at most the
      statements that remained. */
  lemma AnyScheduleIsBounded(moves: seq<Move>, more: seq<Move>)
    requires forall m :: m in more ==> m.Advance?
    ensures Executions(Reached(moves), more) <= TotalRemaining(Reached(moves).txns)
  {
    ReachedInv(moves);
    EveryScheduleIsBounded(Reached(moves), more);
    NoArrivals(more);
  }

  lemma {:induction false} NoArrivals(moves: seq<Move>)
    requires forall m :: m in moves ==> m.Advance?
    ensures Arrivals(moves) == 0
  {
    if |moves| > 0 {
      assert moves[|moves| - 1] in moves;
      NoArrivals(moves[..|moves| - 1]);
    }
  }
}
