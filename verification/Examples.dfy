/** Concrete histories from the empty bank on which the code does less than its description says. */
module Examples {
  import opened Wrappers
  import opened Ledger
  import opened AtomicBank
  import opened Bookkeeping
  import opened Protocol
  import opened Serializability
  import opened Promise
  import opened Duplicates
  import Money

  const OPEN_FIRST := Open(1, 7, "MXN")
  const OPEN_SECOND := Open(2, 8, "MXN")
  const ONE_PESO := Deposit(1, 7, Money.Decimal(100, -2), 1, 0, None)

  /** Two accounts, the first with one peso. */
  const OPENING := [OPEN_FIRST, OPEN_SECOND, ONE_PESO]

  /** Ten cents from the first account to the second. */
  function TenCents(key: string, outId: Uuid, inId: Uuid): Request
  {
    Transfer(1, 2, 10, "MXN", key, 7, outId, inId, 0, 0, None)
  }

  lemma OpeningIsAccepted()
    ensures AllAccepted(EMPTY_BANK, OPENING)
    ensures Replay(EMPTY_BANK, OPENING).accounts
         == map[1 := Account(7, "MXN", 100, Active), 2 := Account(8, "MXN", 0, Active)]
    ensures forall r :: r in Replay(EMPTY_BANK, OPENING).ledger ==> r.key.None?
  {
    Money.WholeAmountsAreExact(0, 100, -2);
    ReplayAppend(EMPTY_BANK, [], OPEN_FIRST);
    assert [] + [OPEN_FIRST] == [OPEN_FIRST];
    ReplayAppend(EMPTY_BANK, [OPEN_FIRST], OPEN_SECOND);
    assert [OPEN_FIRST] + [OPEN_SECOND] == [OPEN_FIRST, OPEN_SECOND];
    ReplayAppend(EMPTY_BANK, [OPEN_FIRST, OPEN_SECOND], ONE_PESO);
    assert [OPEN_FIRST, OPEN_SECOND] + [ONE_PESO] == OPENING;
  }

  /** A short key is free then, and the transfer passes. */
  lemma TenCentsAccepted(key: string, outId: Uuid, inId: Uuid)
    requires |key| <= 61
    ensures Accepts(Replay(EMPTY_BANK, OPENING), TenCents(key, outId, inId))
    ensures Apply(Replay(EMPTY_BANK, OPENING), TenCents(key, outId, inId)).0.accounts
         == map[1 := Account(7, "MXN", 90, Active), 2 := Account(8, "MXN", 10, Active)]
  {
    OpeningIsAccepted();
    var b, r := Replay(EMPTY_BANK, OPENING), TenCents(key, outId, inId);
    assert FindKey(b.ledger, r.key).None? && FindKey(b.ledger, Companion(r.key)).None?;
    assert Refusal(b.accounts, r).None?;
    assert forall row :: row in PlannedRows(r) ==> RowRefusal(b.ledger, row).None?;
    assert PlannedRows(r)[0] in PlannedRows(r) && PlannedRows(r)[1] in PlannedRows(r);
  }

  /** Two transfers under one key both pass the lookup; the second is refused with the unique-key
      error, though its retry is answered with the first one's pair. */
  lemma RaceExample() returns (history: seq<Move>, moves: seq<Move>)
    ensures var one, two, k := TenCents("k", 2, 3), TenCents("k", 4, 5), |Reached(history).txns|;
            && history + BothLookUp(k, one, two) <= moves
            && RaceIsOver(Reached(moves), k, one, two)
            && Apply(Reached(moves).bank, two).1 == Replayed(PlannedRows(one)[0], PlannedRows(one)[1])
  {
    var one, two := TenCents("k", 2, 3), TenCents("k", 4, 5);
    OpeningIsAccepted();
    TenCentsAccepted("k", 2, 3);
    history := EveryHistoryIsReached(OPENING);
    moves := DuplicateLosesRace(history, one, two);
    CommitStoresKeys(Reached(history).bank, one);
  }

  /** After a transfer keyed "k", one keyed "k_in" meets the partial-transfer error. */
  lemma CollisionExample() returns (moves: seq<Move>)
    ensures var log := OPENING + [TenCents("k", 2, 3)];
            && AllAccepted(EMPTY_BANK, log) && Reached(moves).bank == Replay(EMPTY_BANK, log)
            && Apply(Reached(moves).bank, TenCents("k_in", 4, 5)).1 == Refused(PartialTransfer)
  {
    var one, other := TenCents("k", 2, 3), TenCents("k_in", 4, 5);
    OpeningIsAccepted();
    TenCentsAccepted("k", 2, 3);
    ReplayAppend(EMPTY_BANK, OPENING, one);
    moves := EveryHistoryIsReached(OPENING + [one]);
    assert other.key == Companion(one.key);
    CompanionKeysCollide(Replay(EMPTY_BANK, OPENING), one, other);
  }

  // ---------------------------------------------------------------------------
  // A balance ahead of its ledger
  // ---------------------------------------------------------------------------

  /** A deposit by the owner of the first account. */
  function Credit(d: Money.Decimal, rowId: Uuid): Request
  {
    Deposit(1, 7, d, rowId, 0, None)
  }

  lemma CreditAccepted(log: seq<Request>, balance: nat, d: Money.Decimal, rowId: Uuid)
    requires AllAccepted(EMPTY_BANK, log)
    requires Replay(EMPTY_BANK, log).accounts == map[1 := Account(7, "MXN", balance, Active)]
    requires d.coefficient > 0 && Fits(Money.Credited(balance, d)) && Fits(Money.LedgerCents(d))
    ensures AllAccepted(EMPTY_BANK, log + [Credit(d, rowId)])
    ensures Replay(EMPTY_BANK, log + [Credit(d, rowId)]).accounts
         == map[1 := Account(7, "MXN", Money.Credited(balance, d), Active)]
    ensures LedgerBalance(Replay(EMPTY_BANK, log + [Credit(d, rowId)]).ledger, 1)
         == LedgerBalance(Replay(EMPTY_BANK, log).ledger, 1) + Money.LedgerCents(d)
  {
    var r := Credit(d, rowId);
    ReplayAppend(EMPTY_BANK, log, r);
    LedgerBalanceAppend(Replay(EMPTY_BANK, log).ledger, PlannedRows(r)[0], 1);
    assert PlannedRows(r) == [PlannedRows(r)[0]];
  }

  /** Every drift is reached: whenever an amount drifts on a balance, a run from the empty bank
      deposits that balance and then that amount, and ends with the balance one cent above what
      the ledger records. */
  lemma DriftIsReached(balance: nat, d: Money.Decimal) returns (moves: seq<Move>)
    requires balance > 0 && d.coefficient > 0 && Money.Drifts(balance, d)
    requires Money.Credited(balance, d) < Money.CENTS_LIMIT
    ensures Reached(moves).bank
         == Replay(EMPTY_BANK, [OPEN_FIRST, Credit(Money.Decimal(balance, -2), 1), Credit(d, 2)])
    ensures BalanceOf(Reached(moves).bank, 1) == Money.Credited(balance, d)
    ensures BalanceOf(Reached(moves).bank, 1) == LedgerBalance(Reached(moves).bank.ledger, 1) + 1
  {
    Money.CreditedExactly(balance, d);
    assert Money.LedgerCents(d) >= 0;
    Money.WholeAmountsAreExact(0, balance, -2);
    var whole := Credit(Money.Decimal(balance, -2), 1);
    ReplayAppend(EMPTY_BANK, [], OPEN_FIRST);
    assert [] + [OPEN_FIRST] == [OPEN_FIRST];
    CreditAccepted([OPEN_FIRST], 0, Money.Decimal(balance, -2), 1);
    assert [OPEN_FIRST] + [whole] == [OPEN_FIRST, whole];
    CreditAccepted([OPEN_FIRST, whole], balance, d, 2);
    assert [OPEN_FIRST, whole] + [Credit(d, 2)] == [OPEN_FIRST, whole, Credit(d, 2)];
    moves := EveryHistoryIsReached([OPEN_FIRST, whole, Credit(d, 2)]);
  }

  /** An instance: 1000000000000000.00 and then 0.0049999999999. */
  lemma DriftExample() returns (moves: seq<Move>)
    ensures BalanceOf(Reached(moves).bank, 1) == 100_000_000_000_000_001
    ensures LedgerBalance(Reached(moves).bank.ledger, 1) == 100_000_000_000_000_000
  {
    Money.LongAmountsCanDrift();
    moves := DriftIsReached(100_000_000_000_000_000, Money.Decimal(49999999999, -13));
  }
}
