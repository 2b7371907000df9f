/** Duplicate transfers in flight together: which of them are answered with the original pair. */
module Duplicates {
  import opened Wrappers
  import opened Ledger
  import opened AtomicBank
  import opened Bookkeeping
  import opened Protocol
  import opened ProtocolInvariant
  import opened Serializability
  import opened Promise

  // ---------------------------------------------------------------------------
  // The lookup decides
  // ---------------------------------------------------------------------------

  /** The transfer is about to look its key up. */
  predicate LooksUp(w: World, i: Sid)
  {
    i < |w.txns| && w.txns[i].phase.Lookup? && w.txns[i].req.Transfer?
  }

  /** The answers of the idempotency check. */
  predicate FromCheck(o: Outcome)
  {
    o.Replayed? || o == Refused(PartialTransfer)
  }

  /** A transfer whose lookup found nothing: it has gone on, and never answers from the check. */
  predicate Missed(t: Txn)
  {
    && t.req.Transfer?
    && !t.phase.Lookup? && !t.phase.LookupCompanion?
    && (t.phase.Finished? ==> !FromCheck(t.phase.outcome))
  }

  /** A transfer whose lookup found a row: it answers from the check, unless it is cancelled. */
  predicate Hit(t: Txn)
  {
    && t.req.Transfer?
    && (t.phase.LookupCompanion?
        || (t.phase.Finished? && (FromCheck(t.phase.outcome) || t.phase.outcome == Refused(Cancelled))))
  }

  lemma RefusalsAreNoPartial(bank: Bank, accounts: map<Uuid, Account>, r: Request)
    requires r.Transfer?
    ensures LocalRefusal(r) != Some(PartialTransfer) && SourceRefusal(accounts, r) != Some(PartialTransfer)
    ensures Loaded(accounts, r) ==> Refusal(accounts, r) != Some(PartialTransfer)
    ensures forall row :: RowRefusal(bank.ledger, row) != Some(PartialTransfer)
  {
  }

  lemma MissedGoesOn(bank: Bank, rowLocks: map<Uuid, Sid>, keyLocks: map<string, Sid>, i: Sid, t: Txn)
    requires Missed(t) && Unfinished(t)
    ensures var n := AfterEffect(t, Next(bank, rowLocks, keyLocks, i, t)); Missed(n) && n.req == t.req
  {
    RefusalsAreNoPartial(bank, bank.accounts, t.req);
    RefusalsAreNoPartial(bank, t.cache, t.req);
  }

  lemma HitGoesOn(bank: Bank, rowLocks: map<Uuid, Sid>, keyLocks: map<string, Sid>, i: Sid, t: Txn)
    requires Hit(t) && Unfinished(t)
    ensures var n := AfterEffect(t, Next(bank, rowLocks, keyLocks, i, t)); Hit(n) && n.req == t.req
  {
  }

  lemma StepKeepsVerdict(w: World, m: Move, i: Sid)
    requires i < |w.txns|
    ensures i < |Step(w, m).txns|
    ensures Missed(w.txns[i]) ==> Missed(Step(w, m).txns[i]) && Step(w, m).txns[i].req == w.txns[i].req
    ensures Hit(w.txns[i]) ==> Hit(Step(w, m).txns[i]) && Step(w, m).txns[i].req == w.txns[i].req
  {
    OwnMovesOnly(w, m, i);
    if Live(w, i) && Missed(w.txns[i]) { MissedGoesOn(w.bank, w.rowLocks, w.keyLocks, i, w.txns[i]); }
    if Live(w, i) && Hit(w.txns[i]) { HitGoesOn(w.bank, w.rowLocks, w.keyLocks, i, w.txns[i]); }
  }

  /** The lookup itself. */
  lemma LookupDecides(w: World, i: Sid)
    requires LooksUp(w, i)
    ensures i < |Step(w, Advance(i)).txns| && Step(w, Advance(i)).txns[i].req == w.txns[i].req
    ensures if FindKey(w.bank.ledger, w.txns[i].req.key).Some?
            then Hit(Step(w, Advance(i)).txns[i]) else Missed(Step(w, Advance(i)).txns[i])
  {
    OwnMovesOnly(w, Advance(i), i);
    RefusalsAreNoPartial(w.bank, w.bank.accounts, w.txns[i].req);
  }

  /** What the lookup saw decides for the rest of the run. */
  lemma {:induction false} VerdictStands(w: World, moves: seq<Move>, n: nat, i: Sid)
    requires n < |moves| && moves[n] == Advance(i) && LooksUp(Run(w, moves[..n]), i)
    ensures i < |Run(w, moves).txns| && Run(w, moves).txns[i].req == Run(w, moves[..n]).txns[i].req
    ensures if FindKey(Run(w, moves[..n]).bank.ledger, Run(w, moves[..n]).txns[i].req.key).Some?
            then Hit(Run(w, moves).txns[i]) else Missed(Run(w, moves).txns[i])
    decreases |moves|
  {
    var front, last := moves[..|moves| - 1], moves[|moves| - 1];
    if n == |front| {
      LookupDecides(Run(w, front), i);
    } else {
      assert front[..n] == moves[..n];
      VerdictStands(w, front, n, i);
      StepKeepsVerdict(Run(w, front), last, i);
    }
  }

  /** Under the key of a committed transfer nobody meets the partial-transfer error. */
  lemma CommittedKeyIsWhole(moves: seq<Move>, i: Sid, j: Sid)
    requires HasCommitted(Reached(moves), j) && Reached(moves).txns[j].req.Transfer?
    requires i < |Reached(moves).txns| && Reached(moves).txns[i].req.Transfer?
    requires Reached(moves).txns[i].req.key == Reached(moves).txns[j].req.key
    ensures Reached(moves).txns[i].phase != Finished(Refused(PartialTransfer))
  {
    var w := Reached(moves);
    ReachedInv(moves);
    assert TxnOk(w.bank, w.txns[j]);
    if w.txns[i].phase == Finished(Refused(PartialTransfer)) {
      PartialTransferOnlyOnCredits(moves, i);
    }
  }

  /** A duplicate in flight. Let two transfers under one key take part in any run, and let one of
      them commit. Then the other, once finished and not cancelled, was answered with the pair
      exactly when its own lookup already saw a row under the key: "repeating the request returns
      the original response" holds of it then, and only then. */
  lemma DuplicateAnsweredExactly(moves: seq<Move>, n: nat, i: Sid, j: Sid)
    requires n < |moves| && moves[n] == Advance(i) && LooksUp(Reached(moves[..n]), i)
    requires HasCommitted(Reached(moves), j) && j != i && Reached(moves).txns[j].req.Transfer?
    requires Reached(moves[..n]).txns[i].req.key == Reached(moves).txns[j].req.key
    requires i < |Reached(moves).txns| && Reached(moves).txns[i].phase.Finished?
    requires Reached(moves).txns[i].phase.outcome != Refused(Cancelled)
    ensures Answered(Reached(moves), i)
       <==> FindKey(Reached(moves[..n]).bank.ledger, Reached(moves).txns[j].req.key).Some?
    ensures Answered(Reached(moves), i) ==>
              Pair(Reached(moves).txns[i].phase.outcome) == Pair(Reached(moves).txns[j].phase.outcome)
  {
    VerdictStands(Quiet(EMPTY_BANK), moves, n, i);
    if HasCommitted(Reached(moves), i) { AtMostOneCommitPerKey(EMPTY_BANK, moves, i, j); }
    CommittedKeyIsWhole(moves, i, j);
    if Answered(Reached(moves), i) { SameKeySamePair(moves, i, j); }
  }

  lemma {:induction false} CommittedStays(w: World, moves: seq<Move>, n: nat, j: Sid)
    requires Inv(w) && n <= |moves| && HasCommitted(Run(w, moves[..n]), j)
    ensures HasCommitted(Run(w, moves), j) && Run(w, moves).txns[j] == Run(w, moves[..n]).txns[j]
    decreases |moves|
  {
    if n == |moves| {
      assert moves[..n] == moves;
    } else {
      var front, last := moves[..|moves| - 1], moves[|moves| - 1];
      assert front[..n] == moves[..n];
      CommittedStays(w, front, n, j);
      RunKeepsInv(w, front);
      MovesAreInOrder(Run(w, front), last);
      StepCommits(Run(w, front), last, j);
    }
  }

  /** Retrying is safe in any company: a transfer that looks its key up after the original has
      committed is answered with the original's pair, whatever the others do meanwhile, unless it is
      cancelled. */
  lemma RetryInFlightIsReplayed(moves: seq<Move>, n: nat, i: Sid, j: Sid)
    requires n < |moves| && moves[n] == Advance(i) && LooksUp(Reached(moves[..n]), i)
    requires HasCommitted(Reached(moves[..n]), j) && Reached(moves[..n]).txns[j].req.Transfer?
    requires Reached(moves[..n]).txns[i].req.key == Reached(moves[..n]).txns[j].req.key
    requires i < |Reached(moves).txns| && Reached(moves).txns[i].phase.Finished?
    requires Reached(moves).txns[i].phase.outcome != Refused(Cancelled)
    ensures var rows := PlannedRows(Reached(moves[..n]).txns[j].req);
            Reached(moves).txns[i].phase.outcome == Replayed(rows[0], rows[1])
  {
    var w := Reached(moves[..n]);
    ReachedInv(moves[..n]);
    assert TxnOk(w.bank, w.txns[j]);
    QuietInv(EMPTY_BANK);
    CommittedStays(Quiet(EMPTY_BANK), moves, n, j);
    VerdictStands(Quiet(EMPTY_BANK), moves, n, i);
    CommittedKeyIsWhole(moves, i, j);
    SameKeySamePair(moves, i, j);
  }

  // ---------------------------------------------------------------------------
  // The race that the duplicate loses
  // ---------------------------------------------------------------------------

  /** The transfer passes every rule on these tables, apart from its keys. */
  predicate PassesRules(b: Bank, r: Request)
  {
    && r.Transfer? && LocalRefusal(r).None? && SourceRefusal(b.accounts, r).None?
    && r.target in b.accounts && Refusal(b.accounts, r).None?
    && |r.key| <= KEY_WIDTH && Fits(r.amount)
    && (r.description.Some? ==> |r.description.value| <= DESCRIPTION_WIDTH)
  }

  /** Two requests arrive and look their key up, one after the other, before either goes on. */
  function BothLookUp(k: Sid, one: Request, two: Request): seq<Move>
  {
    [Begin(one), Begin(two), Advance(k), Advance(k + 1)]
  }

  lemma FourMoves(w: World, a: Move, b: Move, c: Move, d: Move)
    ensures Run(w, [a, b, c, d]) == Step(Step(Step(Step(w, a), b), c), d)
  {
    var moves := [a, b, c, d];
    assert moves[..3] == [a, b, c] && [a, b, c][..2] == [a, b] && [a, b][..1] == [a] && [a][..0] == [];
    assert Run(w, [a]) == Step(w, a);
    assert Run(w, [a, b]) == Step(Step(w, a), b);
    assert Run(w, [a, b, c]) == Step(Step(Step(w, a), b), c);
  }

  /** A transfer past its lookup. */
  function PastLookup(r: Request): Txn
  {
    Txn(r, ReadSource, map[], [], [])
  }

  lemma Arrives(w: World, r: Request)
    requires SchemaAccepts(r)
    ensures Step(w, Begin(r)) == w.(txns := w.txns + [Start(r)])
  {
  }

  lemma BothArrive(w: World, one: Request, two: Request)
    requires one.Transfer? && two.Transfer?
    ensures Step(Step(w, Begin(one)), Begin(two)) == w.(txns := w.txns + [Start(one), Start(two)])
  {
    Arrives(w, one);
    Arrives(w.(txns := w.txns + [Start(one)]), two);
    assert w.txns + [Start(one)] + [Start(two)] == w.txns + [Start(one), Start(two)];
  }

  lemma LooksAndMisses(w: World, i: Sid, r: Request)
    requires i < |w.txns| && w.txns[i] == Start(r) && r.Transfer?
    requires FindKey(w.bank.ledger, r.key).None? && LocalRefusal(r).None?
    ensures Step(w, Advance(i)) == w.(txns := w.txns[i := PastLookup(r)])
  {
  }

  lemma BothMiss(w: World, one: Request, two: Request)
    requires one.Transfer? && two.Transfer?
    requires FindKey(w.bank.ledger, one.key).None? && FindKey(w.bank.ledger, two.key).None?
    requires LocalRefusal(one).None? && LocalRefusal(two).None?
    ensures Run(w, BothLookUp(|w.txns|, one, two)) == w.(txns := w.txns + [PastLookup(one), PastLookup(two)])
  {
    var k, t := |w.txns|, w.txns;
    FourMoves(w, Begin(one), Begin(two), Advance(k), Advance(k + 1));
    BothArrive(w, one, two);
    LooksAndMisses(w.(txns := t + [Start(one), Start(two)]), k, one);
    assert (t + [Start(one), Start(two)])[k := PastLookup(one)] == t + [PastLookup(one), Start(two)];
    LooksAndMisses(w.(txns := t + [PastLookup(one), Start(two)]), k + 1, two);
    assert (t + [PastLookup(one), Start(two)])[k + 1 := PastLookup(two)] == t + [PastLookup(one), PastLookup(two)];
  }

  /** After the winner has committed, the loser is heading for the unique-key error. */
  lemma LoserHeadsForDuplicateKey(b: Bank, winner: Request, loser: Request)
    requires Accepts(b, winner) && winner.Transfer? && loser.Transfer? && winner.key == loser.key
    requires PassesRules(Apply(b, winner).0, loser)
    ensures Heading(Apply(b, winner).0, PastLookup(loser)) == Refused(DuplicateKey)
  {
    CommitStoresKeys(b, winner);
  }

  lemma WinnerHeadsForCommit(b: Bank, winner: Request)
    requires Accepts(b, winner) && winner.Transfer?
    ensures Heading(b, PastLookup(winner)) == Committed(PlannedRows(winner))
  {
    AcceptedMeans(b, winner);
    TransferHeads(b, winner);
  }

  /** Both are past the lookup, one after the other: the first finishes, then the second. */
  lemma FinishInTurn(w: World, k: Sid, winner: Request, loser: Request) returns (moves: seq<Move>)
    requires Inv(w) && Idle(w) && |w.txns| == k + 2
    requires w.txns[k] == PastLookup(winner) && w.txns[k + 1] == PastLookup(loser)
    requires Accepts(w.bank, winner) && winner.Transfer? && loser.Transfer? && loser.key == winner.key
    requires PassesRules(Apply(w.bank, winner).0, loser)
    ensures RaceIsOver(Run(w, moves), k, winner, loser) && Run(w, moves).bank == Apply(w.bank, winner).0
    ensures Run(w, moves).txns[..k] == w.txns[..k]
  {
    WinnerHeadsForCommit(w.bank, winner);
    var first := FinishUndisturbed(w, k);
    var mid := Run(w, first);
    assert mid.txns[k + 1] == PastLookup(loser);
    LoserHeadsForDuplicateKey(w.bank, winner, loser);
    var second := FinishUndisturbed(mid, k + 1);
    RunConcat(w, first, second);
    moves := first + second;
  }

  /** The winner has committed, the loser was refused with the unique-key error. */
  predicate RaceIsOver(w: World, k: Sid, winner: Request, loser: Request)
  {
    && |w.txns| == k + 2
    && w.txns[k].req == winner && w.txns[k].phase == Finished(Committed(PlannedRows(winner)))
    && w.txns[k + 1].req == loser && w.txns[k + 1].phase == Finished(Refused(DuplicateKey))
  }

  lemma StillIdle(w: World, one: Request, two: Request)
    requires Idle(w)
    ensures Idle(w.(txns := w.txns + [PastLookup(one), PastLookup(two)]))
  {
    assert KeysOf([]) == {};
  }

  /** The failing family: from any reachable state where nobody holds anything, let a transfer that
      would commit and a duplicate of it both look the key up before either commits. There is a
      run in which the first commits and the duplicate, though it passes every rule, is refused
      with the unique-key error, neither cancelled nor answered with the pair. */
  lemma DuplicateLosesRace(history: seq<Move>, winner: Request, loser: Request) returns (moves: seq<Move>)
    requires Idle(Reached(history)) && winner.Transfer? && loser.Transfer? && loser.key == winner.key
    requires Accepts(Reached(history).bank, winner)
    requires PassesRules(Apply(Reached(history).bank, winner).0, loser)
    ensures var k := |Reached(history).txns|;
            && history + BothLookUp(k, winner, loser) <= moves
            && RaceIsOver(Reached(moves), k, winner, loser)
            && Reached(moves).bank == Apply(Reached(history).bank, winner).0
  {
    var w, k := Reached(history), |Reached(history).txns|;
    AcceptedMeans(w.bank, winner);
    BothMiss(w, winner, loser);
    StillIdle(w, winner, loser);
    var started := history + BothLookUp(k, winner, loser);
    RunConcat(Quiet(EMPTY_BANK), history, BothLookUp(k, winner, loser));
    ReachedInv(started);
    var rest := FinishInTurn(Reached(started), k, winner, loser);
    RunConcat(Quiet(EMPTY_BANK), started, rest);
    moves := started + rest;
  }
}
