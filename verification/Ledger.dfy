/** The committed tables: accounts, the append-only ledger and the append-only audit log. */
module Ledger {
  import opened Wrappers
  import Money

  const UUID_LIMIT: nat := 0x1_0000_0000_0000_0000_0000_0000_0000_0000

  /** A UUID is its 128-bit integer: Python sorts UUIDs, and PostgreSQL orders the column, by it. */
  type Uuid = n: nat | n < UUID_LIMIT

  datatype Status = Active | Frozen | Closed

  /** `accounts`: the balance is in cents of the account's currency. */
  datatype Account = Account(owner: Uuid, currency: string, balance: int, status: Status)

  datatype Kind = DepositRow | TransferOut | TransferIn

  /** `transactions`: one immutable movement on one account. */
  datatype Row = Row(id: Uuid, account: Uuid, kind: Kind, amount: int,
                     counterparty: Option<Uuid>, key: Option<string>, description: Option<string>,
                     createdAt: int)

  /** `audit_logs`: the entries the banking services write. */
  datatype Audit =
    | AccountCreated(user: Uuid, account: Uuid, currency: string)
    | DepositCompleted(user: Uuid, txId: Uuid, requested: Money.Decimal, account: Uuid)
    | TransferCompleted(user: Uuid, txOut: Uuid, txIn: Uuid, amount: int, currency: string,
                        fromAccount: Uuid, toAccount: Uuid)

  datatype Bank = Bank(accounts: map<Uuid, Account>, ledger: seq<Row>, audit: seq<Audit>)

  // The widths of the `idempotency_key` and `description` columns.
  const KEY_WIDTH: nat := 64
  const DESCRIPTION_WIDTH: nat := 255

  const SUPPORTED_CURRENCIES: set<string> := {"MXN", "USD"}

  /** The key of the credit that accompanies the debit keyed k. */
  function Companion(k: string): string
  {
    k + "_in"
  }

  predicate EndsInSuffix(k: string)
  {
    |k| >= 3 && k[|k| - 3..] == "_in"
  }

  lemma CompanionEndsInSuffix(k: string)
    ensures EndsInSuffix(Companion(k)) && Companion(k) != k
  {
    assert Companion(k)[|k|..] == "_in";
  }

  /** A balance or amount the Numeric(18, 2) columns accept (nothing here is negative). */
  predicate Fits(cents: int)
  {
    0 <= cents < Money.CENTS_LIMIT
  }

  /** `TransactionRepository.get_by_idempotency_key` on the committed rows. */
  function FindKey(ledger: seq<Row>, k: string): (r: Option<Row>)
    ensures r.Some? ==> r.value in ledger && r.value.key == Some(k)
    ensures r.None? ==> forall x :: x in ledger ==> x.key != Some(k)
  {
    if |ledger| == 0 then None
    else if ledger[|ledger| - 1].key == Some(k) then Some(ledger[|ledger| - 1])
    else FindKey(ledger[..|ledger| - 1], k)
  }

  function KeysOf(rows: seq<Row>): set<string>
  {
    set r | r in rows && r.key.Some? :: r.key.value
  }

  lemma AbsentKey(ledger: seq<Row>, more: seq<Row>, k: string)
    requires FindKey(ledger, k).None? && k !in KeysOf(more)
    ensures FindKey(ledger + more, k).None?
  {
  }

  lemma FindKeyAppend(ledger: seq<Row>, r: Row, k: string)
    ensures FindKey(ledger + [r], k) == if r.key == Some(k) then Some(r) else FindKey(ledger, k)
  {
    assert (ledger + [r])[..|ledger|] == ledger;
  }

  /** Rows appended later never hide or change a row found earlier, when they bring new keys. */
  lemma {:induction false} FindKeyKeeps(ledger: seq<Row>, more: seq<Row>, k: string)
    requires forall x :: x in more && x.key.Some? ==> FindKey(ledger, x.key.value).None?
    requires FindKey(ledger, k).Some?
    ensures FindKey(ledger + more, k) == FindKey(ledger, k)
  {
    if |more| == 0 {
      assert ledger + more == ledger;
    } else {
      var front, last := more[..|more| - 1], more[|more| - 1];
      assert forall x :: x in front ==> x in more;
      FindKeyKeeps(ledger, front, k);
      assert ledger + more == (ledger + front) + [last];
      FindKeyAppend(ledger + front, last, k);
      assert last in more;
    }
  }
}
