/** The per-currency totals of a user's accounts, read from one committed snapshot. */
module UserContext {
  import opened Ledger
  import opened AtomicBank
  import opened Bookkeeping
  import opened Conservation
  import opened Protocol
  import opened ProtocolInvariant
  import opened Serializability
  import Money

  /** The user's accounts. */
  function Mine(accounts: map<Uuid, Account>, user: Uuid): map<Uuid, Account>
  {
    map x | x in accounts && accounts[x].owner == user :: accounts[x]
  }

  /** The totals are right: a currency appears exactly when the user has an account in it, with
      the sum of those balances. */
  ghost predicate TotalsOf(totals: map<string, int>, mine: map<Uuid, Account>)
  {
    && (forall c :: c in totals <==> exists x :: x in mine && mine[x].currency == c)
    && (forall c :: c in totals ==> totals[c] == Total(mine, c))
  }

  /** An account more. */
  lemma TotalsExtend(totals: map<string, int>, mine: map<Uuid, Account>, x: Uuid, a: Account)
    requires TotalsOf(totals, mine) && x !in mine
    ensures var before := if a.currency in totals then totals[a.currency] else 0;
            TotalsOf(totals[a.currency := before + a.balance], mine[x := a])
  {
    var before := if a.currency in totals then totals[a.currency] else 0;
    var after, more := totals[a.currency := before + a.balance], mine[x := a];
    if a.currency !in totals { NoneInCurrency(mine, a.currency); }
    forall c
      ensures c in after <==> exists y :: y in more && more[y].currency == c
      ensures c in after ==> after[c] == Total(more, c)
    {
      TotalUpdate(mine, x, a, c);
      if c == a.currency { assert more[x].currency == c; }
      if c in totals {
        var y :| y in mine && mine[y].currency == c;
        assert more[y].currency == c;
      }
    }
  }

  lemma {:induction false} NoneInCurrency(accounts: map<Uuid, Account>, c: string)
    requires forall x :: x in accounts ==> accounts[x].currency != c
    ensures Total(accounts, c) == 0
    decreases |accounts|
  {
    if accounts != map[] { NoneInCurrency(accounts - {Pick(accounts)}, c); }
  }

  /** Some of the accounts. */
  function Among(mine: map<Uuid, Account>, ids: seq<Uuid>): map<Uuid, Account>
  {
    map x | x in mine && x in ids :: mine[x]
  }

  predicate NoRepeats(ids: seq<Uuid>)
  {
    forall i, j :: 0 <= i < j < |ids| ==> ids[i] != ids[j]
  }

  /** SELECT ... WHERE user_id = user: each row once, in any order. */
  method SelectAccounts(accounts: map<Uuid, Account>, user: Uuid) returns (ids: seq<Uuid>)
    ensures NoRepeats(ids) && forall x :: x in ids <==> x in Mine(accounts, user)
  {
    ids := [];
    var rest := Mine(accounts, user).Keys;
    while rest != {}
      invariant rest <= Mine(accounts, user).Keys
      invariant NoRepeats(ids) && forall x :: x in ids <==> x in Mine(accounts, user).Keys - rest
      decreases |rest|
    {
      var x :| x in rest;
      assert forall i :: 0 <= i < |ids| ==> ids[i] in ids;
      ids, rest := ids + [x], rest - {x};
    }
  }

  lemma AmongNext(mine: map<Uuid, Account>, ids: seq<Uuid>, k: nat)
    requires k < |ids| && NoRepeats(ids) && ids[k] in mine
    ensures ids[k] !in Among(mine, ids[..k])
    ensures Among(mine, ids[..k + 1]) == Among(mine, ids[..k])[ids[k] := mine[ids[k]]]
  {
    assert ids[..k + 1] == ids[..k] + [ids[k]];
  }

  lemma AmongAll(mine: map<Uuid, Account>, ids: seq<Uuid>)
    requires forall x :: x in ids <==> x in mine
    ensures Among(mine, ids[..|ids|]) == mine
  {
    assert ids[..|ids|] == ids;
  }

  /** `get_user_context`: every account of a known user is listed once, as it is in the snapshot,
      and the totals are right. */
  method GetUserContext(users: set<Uuid>, accounts: map<Uuid, Account>, user: Uuid)
    returns (found: bool, list: seq<(Uuid, Account)>, totals: map<string, int>)
    ensures found <==> user in users
    ensures found ==> TotalsOf(totals, Mine(accounts, user))
    ensures found ==> forall i, j :: 0 <= i < j < |list| ==> list[i].0 != list[j].0
    ensures found ==> forall e :: e in list <==> e.0 in Mine(accounts, user) && e.1 == accounts[e.0]
  {
    list, totals := [], map[];
    if user !in users { return false, list, totals; }
    var mine := Mine(accounts, user);
    var rows := SelectAccounts(accounts, user);
    ghost var done: map<Uuid, Account> := map[];
    for k := 0 to |rows|
      invariant |list| == k && forall i :: 0 <= i < k ==> list[i] == (rows[i], mine[rows[i]])
      invariant done == Among(mine, rows[..k])
      invariant TotalsOf(totals, done)
    {
      assert rows[k] in rows;
      var acc := mine[rows[k]];
      list := list + [(rows[k], acc)];
      AmongNext(mine, rows, k);
      TotalsExtend(totals, done, rows[k], acc);
      totals := totals[acc.currency := (if acc.currency in totals then totals[acc.currency] else 0) + acc.balance];
      done := done[rows[k] := acc];
    }
    AmongAll(mine, rows);
    Listed(rows, mine, list);
    found := true;
  }

  lemma Listed(rows: seq<Uuid>, mine: map<Uuid, Account>, list: seq<(Uuid, Account)>)
    requires forall x :: x in rows <==> x in mine
    requires |list| == |rows| && forall i :: 0 <= i < |rows| ==> rows[i] in mine && list[i] == (rows[i], mine[rows[i]])
    ensures forall e :: e in list <==> e.0 in mine && e.1 == mine[e.0]
  {
    forall e: (Uuid, Account) | e.0 in mine && e.1 == mine[e.0]
      ensures e in list
    {
      var i :| 0 <= i < |rows| && rows[i] == e.0;
      assert list[i] == e;
    }
  }

  // ---------------------------------------------------------------------------
  // What the totals show of transfers
  // ---------------------------------------------------------------------------

  lemma MineUpdate(accounts: map<Uuid, Account>, x: Uuid, a: Account, user: Uuid)
    requires x in accounts ==> accounts[x].owner == a.owner
    ensures Mine(accounts[x := a], user)
         == if a.owner == user then Mine(accounts, user)[x := a] else Mine(accounts, user)
  {
  }

  /** The account counts in this total of the user's. */
  predicate Shows(a: Account, user: Uuid, c: string)
  {
    a.owner == user && a.currency == c
  }

  /** One balance changes. */
  lemma OwnedTotalMoves(accounts: map<Uuid, Account>, x: Uuid, cents: int, user: Uuid, c: string)
    requires x in accounts
    ensures Total(Mine(SetBalance(accounts, x, cents), user), c) - Total(Mine(accounts, user), c)
         == if Shows(accounts[x], user, c) then cents - accounts[x].balance else 0
  {
    var a := accounts[x].(balance := cents);
    MineUpdate(accounts, x, a, user);
    if a.owner == user { TotalUpdate(Mine(accounts, user), x, a, c); }
  }

  /** Two balances change. */
  lemma BothMove(accounts: map<Uuid, Account>, s: Uuid, t: Uuid, out: int, credit: int, user: Uuid, c: string)
    requires s in accounts && t in accounts && s != t
    ensures Total(Mine(SetBalance(SetBalance(accounts, s, out), t, credit), user), c) - Total(Mine(accounts, user), c)
         == (if Shows(accounts[s], user, c) then out - accounts[s].balance else 0)
          + (if Shows(accounts[t], user, c) then credit - accounts[t].balance else 0)
  {
    OwnedTotalMoves(accounts, s, out, user, c);
    OwnedTotalMoves(SetBalance(accounts, s, out), t, credit, user, c);
  }

  /** What a committed request adds to a user's total in currency c: a transfer's amount leaves the
      sender's total and enters the receiver's; a deposit enters its owner's, with the drift. */
  function Flow(b: Bank, r: Request, user: Uuid, c: string): int
    requires Loaded(b.accounts, r)
  {
    match r
    case Transfer(s, t, amount, currency, _, _, _, _, _, _, _) =>
      (if b.accounts[t].owner == user && currency == c then amount else 0)
      - (if b.accounts[s].owner == user && currency == c then amount else 0)
    case Deposit(a, _, d, _, _, _) =>
      if Shows(b.accounts[a], user, c) then Money.LedgerCents(d) + (if DriftsIn(b, r) then 1 else 0) else 0
    case SetStatus(_, _) => 0
    case Open(_, _, _) => 0
  }

  lemma TransferShows(b: Bank, r: Request, user: Uuid, c: string)
    requires Accepts(b, r) && r.Transfer?
    ensures Loaded(b.accounts, r)
    ensures Total(Mine(Apply(b, r).0.accounts, user), c) == Total(Mine(b.accounts, user), c) + Flow(b, r, user, c)
  {
    AcceptedMeans(b, r);
    var source, target := b.accounts[r.source], b.accounts[r.target];
    BothMove(b.accounts, r.source, r.target, source.balance - r.amount, target.balance + r.amount, user, c);
  }

  lemma DepositShows(b: Bank, r: Request, user: Uuid, c: string)
    requires BankOk(b) && Accepts(b, r) && r.Deposit?
    ensures Loaded(b.accounts, r)
    ensures Total(Mine(Apply(b, r).0.accounts, user), c) == Total(Mine(b.accounts, user), c) + Flow(b, r, user, c)
  {
    AcceptedMeans(b, r);
    var a := b.accounts[r.account];
    OwnedTotalMoves(b.accounts, r.account, Money.Credited(a.balance, r.requested), user, c);
    Money.CreditedExactly(a.balance, r.requested);
  }

  /** Everything else leaves every total: a status change, and an account that opens empty. */
  lemma OthersDoNotShow(b: Bank, r: Request, user: Uuid, c: string)
    requires Accepts(b, r) && !r.Transfer? && !r.Deposit?
    ensures Total(Mine(Apply(b, r).0.accounts, user), c) == Total(Mine(b.accounts, user), c)
  {
    AcceptedMeans(b, r);
    var a := if r.SetStatus? then b.accounts[r.account].(status := r.status)
             else Account(r.user, r.currency, 0, Active);
    MineUpdate(b.accounts, r.account, a, user);
    if a.owner == user { TotalUpdate(Mine(b.accounts, user), r.account, a, c); }
  }

  lemma CommitShows(b: Bank, r: Request, user: Uuid, c: string)
    requires BankOk(b) && Accepts(b, r)
    ensures Loaded(b.accounts, r)
    ensures Total(Mine(Apply(b, r).0.accounts, user), c) == Total(Mine(b.accounts, user), c) + Flow(b, r, user, c)
  {
    AcceptedMeans(b, r);
    if r.Transfer? {
      TransferShows(b, r, user, c);
    } else if r.Deposit? {
      DepositShows(b, r, user, c);
    } else {
      OthersDoNotShow(b, r, user, c);
    }
  }

  /** What an observer of one user sees in a snapshot: the total in currency c. */
  ghost function Seen(moves: seq<Move>, n: nat, user: Uuid, c: string): int
    requires n <= |moves|
  {
    Total(Mine(Reached(moves[..n]).bank.accounts, user), c)
  }

  /** What the k-th move of a run adds to it. */
  function FlowAt(moves: seq<Move>, k: nat, user: Uuid, c: string): int
    requires k < |moves|
  {
    var w := Reached(moves[..k]);
    if Commits(w, moves[k]) && Loaded(w.bank.accounts, w.txns[moves[k].i].req)
    then Flow(w.bank, w.txns[moves[k].i].req, user, c) else 0
  }

  function FlowBetween(moves: seq<Move>, m: nat, n: nat, user: Uuid, c: string): int
    requires m <= n <= |moves|
  {
    if m == n then 0 else FlowBetween(moves, m, n - 1, user, c) + FlowAt(moves, n - 1, user, c)
  }

  lemma MoveShows(moves: seq<Move>, k: nat, user: Uuid, c: string)
    requires k < |moves|
    ensures Seen(moves, k + 1, user, c) == Seen(moves, k, user, c) + FlowAt(moves, k, user, c)
  {
    var w, m := Reached(moves[..k]), moves[k];
    assert moves[..k + 1][..k] == moves[..k];
    assert Reached(moves[..k + 1]) == Step(w, m);
    ReachedInv(moves[..k]);
    StepRefines(w, m);
    if Commits(w, m) { CommitShows(w.bank, w.txns[m.i].req, user, c); }
  }

  /** Between any two snapshots of any run, a user's total changes by exactly what the commits in
      between add to it: however their transactions interleave, no observer sees half of one. */
  lemma {:induction false} TotalsFollowCommits(moves: seq<Move>, m: nat, n: nat, user: Uuid, c: string)
    requires m <= n <= |moves|
    ensures Seen(moves, n, user, c) == Seen(moves, m, user, c) + FlowBetween(moves, m, n, user, c)
  {
    if m < n {
      TotalsFollowCommits(moves, m, n - 1, user, c);
      MoveShows(moves, n - 1, user, c);
    }
  }

  /** The request moves money only between the user's own accounts, or between others'. */
  predicate KeepsTotals(accounts: map<Uuid, Account>, r: Request, user: Uuid)
  {
    match r
    case Transfer(s, t, _, _, _, _, _, _, _, _, _) =>
      s in accounts && t in accounts && (accounts[s].owner == user <==> accounts[t].owner == user)
    case Deposit(a, _, _, _, _, _) => a in accounts && accounts[a].owner != user
    case SetStatus(_, _) => true
    case Open(_, _, _) => true
  }

  /** No observer ever sees a transfer between two of a user's own accounts as missing or doubled
      money: two snapshots of any run show the same totals, when what was committed in between
      moved money only between the user's accounts or between other users'. */
  lemma {:induction false} OwnTransfersAreInvisible(moves: seq<Move>, m: nat, n: nat, user: Uuid, c: string)
    requires m <= n <= |moves|
    requires forall k :: m <= k < n && Commits(Reached(moves[..k]), moves[k]) ==>
               KeepsTotals(Reached(moves[..k]).bank.accounts, Reached(moves[..k]).txns[moves[k].i].req, user)
    ensures Seen(moves, n, user, c) == Seen(moves, m, user, c)
  {
    if m < n {
      OwnTransfersAreInvisible(moves, m, n - 1, user, c);
      MoveShows(moves, n - 1, user, c);
    }
  }
}
