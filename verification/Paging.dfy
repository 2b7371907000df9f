/** Newest-first pages of an account's transactions, found by keyset, while the ledger grows. */
module Paging {
  import opened Wrappers
  import opened Ledger
  import opened Cursor
  import opened AtomicBank
  import opened Protocol
  import opened Serializability

  // ---------------------------------------------------------------------------
  // The order, and what a SELECT returns
  // ---------------------------------------------------------------------------

  /** A row's place in the order (created_at, id). */
  datatype Mark = Mark(createdAt: int, id: Uuid)

  function MarkOf(r: Row): Mark
  {
    Mark(r.createdAt, r.id)
  }

  predicate OlderThan(r: Row, m: Mark)
  {
    r.createdAt < m.createdAt || (r.createdAt == m.createdAt && r.id < m.id)
  }

  /** Newest first, strictly: so without duplicates. */
  ghost predicate Descending(s: seq<Row>)
  {
    forall i, j :: 0 <= i < j < |s| ==> OlderThan(s[j], MarkOf(s[i]))
  }

  /** The primary key of `transactions`. */
  predicate IdsUnique(ledger: seq<Row>)
  {
    forall i, j :: 0 <= i < j < |ledger| ==> ledger[i].id != ledger[j].id
  }

  /** SELECT ... WHERE account_id = account [AND (created_at, id) < after]
      ORDER BY created_at DESC, id DESC [LIMIT limit]. */
  datatype Query = Query(account: Uuid, after: Option<Mark>, limit: Option<nat>)

  predicate Past(r: Row, after: Option<Mark>)
  {
    after.Some? ==> OlderThan(r, after.value)
  }

  predicate Selects(q: Query, r: Row)
  {
    r.account == q.account && Past(r, q.after)
  }

  function Place(r: Row, s: seq<Row>): seq<Row>
  {
    if |s| > 0 && OlderThan(r, MarkOf(s[0])) then [s[0]] + Place(r, s[1..]) else [r] + s
  }

  function Matching(ledger: seq<Row>, q: Query): seq<Row>
  {
    if |ledger| == 0 then []
    else
      var others, last := Matching(ledger[..|ledger| - 1], q), ledger[|ledger| - 1];
      if Selects(q, last) then Place(last, others) else others
  }

  function Cut(s: seq<Row>, limit: nat): seq<Row>
  {
    if |s| > limit then s[..limit] else s
  }

  lemma CutOneMore(s: seq<Row>, limit: nat)
    ensures Cut(Cut(s, limit + 1), limit) == Cut(s, limit)
    ensures |Cut(s, limit + 1)| > limit <==> |s| > limit
  {
  }

  function Execute(ledger: seq<Row>, q: Query): seq<Row>
  {
    if q.limit.Some? then Cut(Matching(ledger, q), q.limit.value) else Matching(ledger, q)
  }

  /** All rows of an account, newest first. */
  function History(ledger: seq<Row>, a: Uuid): seq<Row>
  {
    Matching(ledger, Query(a, None, None))
  }

  lemma {:induction false} PlaceSorts(r: Row, s: seq<Row>)
    requires Descending(s) && forall x :: x in s ==> x.id != r.id
    ensures Descending(Place(r, s))
    ensures forall x :: x in Place(r, s) <==> x == r || x in s
  {
    if |s| > 0 {
      assert s[0] in s;
      if OlderThan(r, MarkOf(s[0])) {
        var rest := Place(r, s[1..]);
        PlaceSorts(r, s[1..]);
        assert s == [s[0]] + s[1..];
        forall x | x in rest
          ensures OlderThan(x, MarkOf(s[0]))
        {
        }
      }
    }
  }

  lemma IdsUniqueFront(ledger: seq<Row>)
    requires |ledger| > 0 && IdsUnique(ledger)
    ensures IdsUnique(ledger[..|ledger| - 1])
    ensures forall x :: x in ledger[..|ledger| - 1] ==> x.id != ledger[|ledger| - 1].id
  {
  }

  /** A query's rows are those it selects, newest first. */
  lemma {:induction false} MatchingIsSorted(ledger: seq<Row>, q: Query)
    requires IdsUnique(ledger)
    ensures Descending(Matching(ledger, q))
    ensures forall x :: x in Matching(ledger, q) <==> x in ledger && Selects(q, x)
  {
    if |ledger| > 0 {
      var front, last := ledger[..|ledger| - 1], ledger[|ledger| - 1];
      IdsUniqueFront(ledger);
      MatchingIsSorted(front, q);
      if Selects(q, last) { PlaceSorts(last, Matching(front, q)); }
      assert ledger == front + [last];
    }
  }

  // ---------------------------------------------------------------------------
  // Slices of the history
  // ---------------------------------------------------------------------------

  /** The part of a history past a mark. */
  function From(h: seq<Row>, after: Option<Mark>): seq<Row>
  {
    if |h| == 0 || Past(h[0], after) then h else From(h[1..], after)
  }

  lemma {:induction false} FromIsSuffix(h: seq<Row>, after: Option<Mark>) returns (k: nat)
    ensures k <= |h| && From(h, after) == h[k..]
    ensures forall i :: 0 <= i < k ==> !Past(h[i], after)
  {
    if |h| == 0 || Past(h[0], after) {
      k := 0;
    } else {
      var j := FromIsSuffix(h[1..], after);
      k := j + 1;
      assert h[1..][j..] == h[k..];
      assert forall i :: 1 <= i < k ==> h[i] == h[1..][i - 1];
    }
  }

  lemma FromSelects(h: seq<Row>, after: Option<Mark>)
    requires Descending(h)
    ensures Descending(From(h, after))
    ensures forall x :: x in From(h, after) <==> x in h && Past(x, after)
  {
    var k := FromIsSuffix(h, after);
    if k < |h| {
      FromStops(h, after);
      forall i | k <= i < |h|
        ensures Past(h[i], after)
      {
      }
    }
  }

  lemma {:induction false} FromStops(h: seq<Row>, after: Option<Mark>)
    ensures |From(h, after)| > 0 ==> Past(From(h, after)[0], after)
  {
    if |h| > 0 && !Past(h[0], after) { FromStops(h[1..], after); }
  }

  lemma TailHas(s: seq<Row>, x: Row)
    requires Descending(s) && |s| > 0
    ensures x in s[1..] <==> x in s && x != s[0]
  {
    assert s == [s[0]] + s[1..];
  }

  /** A descending sequence is determined by its rows. */
  lemma {:induction false} SameDescending(s: seq<Row>, t: seq<Row>)
    requires Descending(s) && Descending(t) && forall x :: x in s <==> x in t
    ensures s == t
  {
    assert |s| > 0 ==> s[0] in s;
    assert |t| > 0 ==> t[0] in t;
    if |s| > 0 {
      assert s[0] == t[0];
      forall x
        ensures x in s[1..] <==> x in t[1..]
      {
        TailHas(s, x);
        TailHas(t, x);
      }
      SameDescending(s[1..], t[1..]);
    }
  }

  /** The keyset condition slices the sorted history. */
  lemma KeysetSlices(ledger: seq<Row>, a: Uuid, after: Option<Mark>, limit: Option<nat>)
    requires IdsUnique(ledger)
    ensures Matching(ledger, Query(a, after, limit)) == From(History(ledger, a), after)
  {
    MatchingIsSorted(ledger, Query(a, after, limit));
    MatchingIsSorted(ledger, Query(a, None, None));
    FromSelects(History(ledger, a), after);
    SameDescending(Matching(ledger, Query(a, after, limit)), From(History(ledger, a), after));
  }

  // ---------------------------------------------------------------------------
  // Pages
  // ---------------------------------------------------------------------------

  function FindId(ledger: seq<Row>, id: Uuid): (r: Option<Row>)
    ensures r.Some? ==> r.value in ledger && r.value.id == id
    ensures r.None? ==> forall x :: x in ledger ==> x.id != id
  {
    if |ledger| == 0 then None
    else if ledger[|ledger| - 1].id == id then Some(ledger[|ledger| - 1])
    else FindId(ledger[..|ledger| - 1], id)
  }

  /** Where a cursor continues: the place of the row it names, of any account; the beginning when
      it is absent, malformed, or names no row. */
  function Position(ledger: seq<Row>, cursor: Option<string>): Option<Mark>
  {
    match cursor
    case None => None
    case Some(c) =>
      match DecodeCursor(c)
      case None => None
      case Some(id) =>
        match FindId(ledger, id)
        case None => None
        case Some(row) => Some(MarkOf(row))
  }

  /** The page past a cursor, by slicing the whole history: at most `limit` rows, and a cursor for
      the next page when rows remain. The cursor's row is looked up in an earlier snapshot. */
  function Page(lookup: seq<Row>, ledger: seq<Row>, a: Uuid, limit: nat, cursor: Option<string>)
    : (seq<Row>, Option<string>)
  {
    var rest := From(History(ledger, a), Position(lookup, cursor));
    var items := Cut(rest, limit);
    (items, if |rest| > limit > 0 then Some(EncodeCursor(items[limit - 1].id)) else None)
  }

  /** The repository over the committed tables, which grow at every `await`. */
  class TransactionRepository {
    var accounts: map<Uuid, Account>
    var ledger: seq<Row>

    ghost predicate Valid()
      reads this
    {
      IdsUnique(ledger)
    }

    constructor ()
      ensures Valid()
    {
      accounts, ledger := map[], [];
    }

    /** Other requests commit rows, of any age. */
    method Await()
      requires Valid()
      modifies this
      ensures Valid() && old(ledger) <= ledger
    {
      var more: seq<Row> := *;
      if IdsUnique(ledger + more) { ledger := ledger + more; }
      accounts := *;
    }

    /** `get_by_account_id_paginated`: the statement is built in stages, one row more than the
        page is fetched, and what comes out is the slice of the sorted history. */
    method GetByAccountIdPaginated(accountId: Uuid, limit: nat, cursor: Option<string>)
      returns (items: seq<Row>, nextCursor: Option<string>, ghost lookup: seq<Row>)
      requires Valid()
      modifies this
      ensures Valid() && old(ledger) <= lookup <= ledger
      ensures (items, nextCursor) == Page(lookup, ledger, accountId, limit, cursor)
    {
      var stmt := Query(accountId, None, None);
      lookup := ledger;
      if cursor.Some? {
        var cursorId := DecodeCursor(cursor.value);
        if cursorId.Some? {
          var cursorRow := FindId(ledger, cursorId.value);
          if cursorRow.Some? {
            stmt := stmt.(after := Some(Mark(cursorRow.value.createdAt, cursorRow.value.id)));
          }
          Await();
        }
      }
      assert stmt == Query(accountId, Position(lookup, cursor), None);
      stmt := stmt.(limit := Some(limit + 1));
      var rows := Execute(ledger, stmt);
      KeysetSlices(ledger, accountId, stmt.after, stmt.limit);
      CutOneMore(From(History(ledger, accountId), stmt.after), limit);
      var hasMore := |rows| > limit;
      items := if |rows| > limit then rows[..limit] else rows;
      nextCursor := None;
      if hasMore && |items| > 0 {
        nextCursor := Some(EncodeCursor(items[|items| - 1].id));
      }
    }

    /** `get_account_transactions`: only the owner of an existing account gets a page. */
    method GetAccountTransactions(accountId: Uuid, user: Uuid, limit: nat, cursor: Option<string>)
      returns (error: Option<Error>, items: seq<Row>, nextCursor: Option<string>, ghost lookup: seq<Row>)
      requires Valid()
      modifies this
      ensures Valid() && old(ledger) <= lookup <= ledger
      ensures error == if accountId !in old(accounts) then Some(AccountNotFound)
                       else if old(accounts)[accountId].owner != user then Some(Unauthorized) else None
      ensures error.None? ==> (items, nextCursor) == Page(lookup, ledger, accountId, limit, cursor)
      ensures error.Some? ==> items == [] && nextCursor == None && ledger == old(ledger)
    {
      error, items, nextCursor, lookup := None, [], None, ledger;
      if accountId !in accounts { error := Some(AccountNotFound); return; }
      if accounts[accountId].owner != user { error := Some(Unauthorized); return; }
      Await();
      items, nextCursor, lookup := GetByAccountIdPaginated(accountId, limit, cursor);
    }
  }

  lemma {:induction false} FindIdIsTheRow(ledger: seq<Row>, r: Row)
    requires IdsUnique(ledger) && r in ledger
    ensures FindId(ledger, r.id) == Some(r)
  {
    var front, last := ledger[..|ledger| - 1], ledger[|ledger| - 1];
    IdsUniqueFront(ledger);
    assert ledger == front + [last];
    if r != last { FindIdIsTheRow(front, r); }
  }

  /** The cursor made from a row leads back to that row's place. */
  lemma CursorFindsRow(ledger: seq<Row>, r: Row)
    requires IdsUnique(ledger) && r in ledger
    ensures Position(ledger, Some(EncodeCursor(r.id))) == Some(Mark(r.createdAt, r.id))
  {
    CursorRoundTrip(r.id);
    FindIdIsTheRow(ledger, r);
  }

  // ---------------------------------------------------------------------------
  // Walking through the pages
  // ---------------------------------------------------------------------------

  /** The two snapshots of one page request. */
  datatype Fetch = Fetch(lookup: seq<Row>, ledger: seq<Row>)

  /** Following the cursors, one page per fetch: the pages, and whether the last was reached. */
  function Walk(fetches: seq<Fetch>, a: Uuid, limit: nat, cursor: Option<string>): (seq<seq<Row>>, bool)
  {
    if |fetches| == 0 then ([], false)
    else
      var (items, next) := Page(fetches[0].lookup, fetches[0].ledger, a, limit, cursor);
      if next.None? then ([items], true)
      else
        var (pages, done) := Walk(fetches[1..], a, limit, next);
        ([items] + pages, done)
  }

  function Flat(pages: seq<seq<Row>>): seq<Row>
  {
    if |pages| == 0 then [] else pages[0] + Flat(pages[1..])
  }

  /** The ledger only grows from one snapshot to the next. */
  ghost predicate Growing(fetches: seq<Fetch>)
  {
    && (forall i :: 0 <= i < |fetches| ==> fetches[i].lookup <= fetches[i].ledger && IdsUnique(fetches[i].ledger))
    && (forall i :: 0 < i < |fetches| ==> fetches[i - 1].ledger <= fetches[i].lookup)
  }

  lemma PrefixUnique(s: seq<Row>, t: seq<Row>)
    requires s <= t && IdsUnique(t)
    ensures IdsUnique(s) && forall x :: x in s ==> x in t
  {
    assert s == t[..|s|];
  }

  lemma {:induction false} LastLedgerGrows(fetches: seq<Fetch>)
    requires Growing(fetches) && |fetches| > 0
    ensures fetches[0].ledger <= fetches[|fetches| - 1].ledger
  {
    if |fetches| > 1 {
      assert fetches[1..][0] == fetches[1];
      LastLedgerGrows(fetches[1..]);
    }
  }

  /** The rows of one page: newest first, past the mark; and when there is a next page, every
      other row past the mark is past this page's last row. */
  lemma PageRows(f: Fetch, a: Uuid, limit: nat, cursor: Option<string>)
    requires f.lookup <= f.ledger && IdsUnique(f.ledger) && limit > 0
    ensures var (items, next) := Page(f.lookup, f.ledger, a, limit, cursor);
            var mark := Position(f.lookup, cursor);
            && Descending(items)
            && (forall r :: r in items ==> r in f.ledger && r.account == a && Past(r, mark))
            && (next.None? ==> forall r :: r in f.ledger && r.account == a && Past(r, mark) ==> r in items)
            && (next.Some? ==>
                  && |items| == limit && next == Some(EncodeCursor(items[limit - 1].id))
                  && forall r :: r in f.ledger && r.account == a && Past(r, mark) ==>
                       r in items || OlderThan(r, MarkOf(items[limit - 1])))
  {
    MatchingIsSorted(f.ledger, Query(a, None, None));
    FromSelects(History(f.ledger, a), Position(f.lookup, cursor));
    var rest := From(History(f.ledger, a), Position(f.lookup, cursor));
    if |rest| > limit {
      assert rest == rest[..limit] + rest[limit..];
    }
  }

  /** Two descending stretches, the second past the end of the first, join. */
  lemma DescendingJoin(s: seq<Row>, t: seq<Row>)
    requires Descending(s) && Descending(t)
    requires |s| > 0 && forall r :: r in t ==> OlderThan(r, MarkOf(s[|s| - 1]))
    ensures Descending(s + t)
  {
    forall i, j | 0 <= i < |s| && 0 <= j < |t|
      ensures OlderThan(t[j], MarkOf(s[i]))
    {
      assert t[j] in t;
      if i < |s| - 1 { assert OlderThan(s[|s| - 1], MarkOf(s[i])); }
    }
  }

  /** What a walk over a growing ledger has returned. */
  ghost predicate WalkOk(fetches: seq<Fetch>, a: Uuid, after: Option<Mark>, rows: seq<Row>, done: bool)
    requires |fetches| > 0
  {
    && Descending(rows)
    && (forall r :: r in rows ==> r in fetches[|fetches| - 1].ledger && r.account == a && Past(r, after))
    && (done ==> forall r :: r in fetches[0].lookup && r.account == a && Past(r, after) ==> r in rows)
  }

  /** One page in front of a walk that continues at its last row. */
  lemma WalkExtends(fetches: seq<Fetch>, a: Uuid, limit: nat, cursor: Option<string>, rows: seq<Row>, done: bool)
    requires Growing(fetches) && |fetches| > 1 && limit > 0
    requires Page(fetches[0].lookup, fetches[0].ledger, a, limit, cursor).1.Some?
    requires var items := Page(fetches[0].lookup, fetches[0].ledger, a, limit, cursor).0;
             |items| == limit && WalkOk(fetches[1..], a, Some(MarkOf(items[limit - 1])), rows, done)
    ensures var items := Page(fetches[0].lookup, fetches[0].ledger, a, limit, cursor).0;
            WalkOk(fetches, a, Position(fetches[0].lookup, cursor), items + rows, done)
  {
    var f, items := fetches[0], Page(fetches[0].lookup, fetches[0].ledger, a, limit, cursor).0;
    var mark, last := Position(f.lookup, cursor), items[limit - 1];
    PageRows(f, a, limit, cursor);
    DescendingJoin(items, rows);
    LastLedgerGrows(fetches);
    PrefixUnique(f.ledger, fetches[|fetches| - 1].ledger);
    assert last in items;
    forall r | r in rows
      ensures Past(r, mark)
    {
      assert Past(last, mark) && OlderThan(r, MarkOf(last));
    }
    PrefixUnique(f.lookup, f.ledger);
    PrefixUnique(f.ledger, fetches[1].lookup) by {
      PrefixUnique(fetches[1].lookup, fetches[1].ledger);
    }
  }

  /** Paging while the ledger grows: whatever rows are appended between and during the fetches,
      even rows older than those already shown, the pages together are strictly descending, so
      without duplicates, and when the last page is reached they include every row of the account
      past the first cursor that was committed when the walk began. */
  lemma {:induction false} GrowingWalk(fetches: seq<Fetch>, a: Uuid, limit: nat, cursor: Option<string>)
    requires Growing(fetches) && |fetches| > 0 && limit > 0
    ensures var (pages, done) := Walk(fetches, a, limit, cursor);
            WalkOk(fetches, a, Position(fetches[0].lookup, cursor), Flat(pages), done)
    decreases |fetches|
  {
    var f := fetches[0];
    var (items, next) := Page(f.lookup, f.ledger, a, limit, cursor);
    PageRows(f, a, limit, cursor);
    PrefixUnique(f.lookup, f.ledger);
    LastLedgerGrows(fetches);
    PrefixUnique(f.ledger, fetches[|fetches| - 1].ledger);
    assert Flat([items]) == items by { assert [items][1..] == []; }
    if next.Some? {
      var (pages, done) := Walk(fetches[1..], a, limit, next);
      assert ([items] + pages)[1..] == pages;
      if |fetches| > 1 {
        CursorStays(fetches, items[limit - 1]);
        GrowingWalk(fetches[1..], a, limit, next);
        WalkExtends(fetches, a, limit, cursor, Flat(pages), done);
      }
    }
  }

  /** The next request finds the row this one ended on. */
  lemma CursorStays(fetches: seq<Fetch>, r: Row)
    requires Growing(fetches) && |fetches| > 1 && r in fetches[0].ledger
    ensures Position(fetches[1].lookup, Some(EncodeCursor(r.id))) == Some(MarkOf(r))
  {
    PrefixUnique(fetches[1].lookup, fetches[1].ledger);
    PrefixUnique(fetches[0].ledger, fetches[1].lookup);
    CursorFindsRow(fetches[1].lookup, r);
  }

  // ---------------------------------------------------------------------------
  // A ledger that stays as it is
  // ---------------------------------------------------------------------------

  /** A history cut into pages of `limit` rows. */
  function Chunks(h: seq<Row>, limit: nat): (pages: seq<seq<Row>>)
    requires limit > 0
    ensures |pages| > 0
  {
    if |h| <= limit then [h] else [h[..limit]] + Chunks(h[limit..], limit)
  }

  /** The chunks make up the history, all are full but the last, and only an empty history has an
      empty page. */
  lemma {:induction false} ChunksMakeUp(h: seq<Row>, limit: nat)
    requires limit > 0
    ensures Flat(Chunks(h, limit)) == h
    ensures forall i :: 0 <= i < |Chunks(h, limit)| - 1 ==> |Chunks(h, limit)[i]| == limit
    ensures var last := Chunks(h, limit)[|Chunks(h, limit)| - 1]; |last| <= limit && (|last| == 0 ==> h == [])
    ensures |Chunks(h, limit)| <= |h| + 1
  {
    var pages := Chunks(h, limit);
    if |h| <= limit {
      assert pages[1..] == [];
    } else {
      ChunksMakeUp(h[limit..], limit);
      assert pages[1..] == Chunks(h[limit..], limit);
      assert h == h[..limit] + h[limit..];
    }
  }

  lemma {:induction false} FromMark(h: seq<Row>, k: nat)
    requires Descending(h) && k < |h|
    ensures From(h, Some(MarkOf(h[k]))) == h[k + 1..]
  {
    if k == 0 {
      if |h| > 1 { assert Past(h[1], Some(MarkOf(h[0]))); }
    } else {
      assert OlderThan(h[k], MarkOf(h[0]));
      FromMark(h[1..], k - 1);
      assert h[1..][k..] == h[k + 1..];
    }
  }

  /** The cursor of a full page continues right after it. */
  lemma NextPageFollows(ledger: seq<Row>, a: Uuid, limit: nat, cursor: Option<string>)
    requires IdsUnique(ledger) && limit > 0
    requires |From(History(ledger, a), Position(ledger, cursor))| > limit
    ensures var rest := From(History(ledger, a), Position(ledger, cursor));
            From(History(ledger, a), Position(ledger, Some(EncodeCursor(rest[limit - 1].id)))) == rest[limit..]
  {
    var h := History(ledger, a);
    var k := FromIsSuffix(h, Position(ledger, cursor));
    var last := h[k..][limit - 1];
    MatchingIsSorted(ledger, Query(a, None, None));
    assert last == h[k + limit - 1] && last in h;
    CursorFindsRow(ledger, last);
    FromMark(h, k + limit - 1);
    assert h[k..][limit..] == h[k + limit..];
  }

  /** Paging a fixed ledger: with enough fetches the walk ends, and its pages are exactly the
      sorted history past the cursor cut into chunks of `limit`. */
  lemma {:induction false} FixedWalk(fetches: seq<Fetch>, ledger: seq<Row>, a: Uuid, limit: nat, cursor: Option<string>)
    requires IdsUnique(ledger) && limit > 0
    requires forall i :: 0 <= i < |fetches| ==> fetches[i] == Fetch(ledger, ledger)
    requires |fetches| >= |Chunks(From(History(ledger, a), Position(ledger, cursor)), limit)|
    ensures Walk(fetches, a, limit, cursor)
         == (Chunks(From(History(ledger, a), Position(ledger, cursor)), limit), true)
    decreases |fetches|
  {
    var rest := From(History(ledger, a), Position(ledger, cursor));
    if |rest| > limit {
      NextPageFollows(ledger, a, limit, cursor);
      assert Page(ledger, ledger, a, limit, cursor).1 == Some(EncodeCursor(rest[limit - 1].id));
      FixedWalk(fetches[1..], ledger, a, limit, Some(EncodeCursor(rest[limit - 1].id)));
    }
  }

  /** From the first page on: exactly the account's rows, newest first, every page but the last
      with exactly `limit` rows. */
  lemma WholeWalk(fetches: seq<Fetch>, ledger: seq<Row>, a: Uuid, limit: nat)
    requires IdsUnique(ledger) && limit > 0 && |fetches| > |History(ledger, a)|
    requires forall i :: 0 <= i < |fetches| ==> fetches[i] == Fetch(ledger, ledger)
    ensures var (pages, done) := Walk(fetches, a, limit, None);
            && done
            && Flat(pages) == History(ledger, a)
            && (forall i :: 0 <= i < |pages| - 1 ==> |pages[i]| == limit)
            && Descending(Flat(pages))
            && (forall r :: r in Flat(pages) <==> r in ledger && r.account == a)
  {
    var h := History(ledger, a);
    assert From(h, None) == h;
    ChunksMakeUp(h, limit);
    FixedWalk(fetches, ledger, a, limit, None);
    MatchingIsSorted(ledger, Query(a, None, None));
  }

  // ---------------------------------------------------------------------------
  // The order on the columns
  // ---------------------------------------------------------------------------

  /** Newest first, on the columns: the creation time descends, and the id where times are equal. */
  lemma DescendingOnColumns(s: seq<Row>)
    requires Descending(s)
    ensures forall i, j :: 0 <= i < j < |s| ==>
              s[j].createdAt < s[i].createdAt || (s[j].createdAt == s[i].createdAt && s[j].id < s[i].id)
  {
  }

  /** The first page: the newest rows of the account, newest first, at most `limit` of them, and a
      next cursor exactly when others remain, all of which are older than every row shown. */
  lemma FirstPage(f: Fetch, a: Uuid, limit: nat)
    requires f.lookup <= f.ledger && IdsUnique(f.ledger) && limit > 0
    ensures var (items, next) := Page(f.lookup, f.ledger, a, limit, None);
            && |items| <= limit
            && (forall i, j :: 0 <= i < j < |items| ==>
                  items[j].createdAt < items[i].createdAt
                  || (items[j].createdAt == items[i].createdAt && items[j].id < items[i].id))
            && (forall r :: r in items ==> r in f.ledger && r.account == a)
            && (forall r, x :: r in f.ledger && r.account == a && r !in items && x in items ==>
                  r.createdAt < x.createdAt || (r.createdAt == x.createdAt && r.id < x.id))
            && (next.Some? <==> exists r :: r in f.ledger && r.account == a && r !in items)
            && (next.Some? ==> |items| == limit)
  {
    NextPage(f, a, limit, None);
  }

  /** The row the position is at, on the columns; every row is past the beginning. */
  predicate Beyond(r: Row, after: Option<Mark>)
  {
    after.None? || r.createdAt < after.value.createdAt
    || (r.createdAt == after.value.createdAt && r.id < after.value.id)
  }

  /** Every page, likewise: the newest rows of the account beyond its cursor's row. */
  lemma NextPage(f: Fetch, a: Uuid, limit: nat, cursor: Option<string>)
    requires f.lookup <= f.ledger && IdsUnique(f.ledger) && limit > 0
    ensures var (items, next) := Page(f.lookup, f.ledger, a, limit, cursor);
            var after := Position(f.lookup, cursor);
            && |items| <= limit
            && (forall i, j :: 0 <= i < j < |items| ==>
                  items[j].createdAt < items[i].createdAt
                  || (items[j].createdAt == items[i].createdAt && items[j].id < items[i].id))
            && (forall r :: r in items ==> r in f.ledger && r.account == a && Beyond(r, after))
            && (forall r, x :: r in f.ledger && r.account == a && Beyond(r, after) && r !in items && x in items ==>
                  r.createdAt < x.createdAt || (r.createdAt == x.createdAt && r.id < x.id))
            && (next.Some? <==> exists r :: r in f.ledger && r.account == a && Beyond(r, after) && r !in items)
            && (next.Some? ==> |items| == limit)
  {
    var (items, next) := Page(f.lookup, f.ledger, a, limit, cursor);
    var after := Position(f.lookup, cursor);
    PageRows(f, a, limit, cursor);
    DescendingOnColumns(items);
    assert forall r: Row :: Beyond(r, after) <==> Past(r, after);
    if next.Some? {
      OthersAreOlder(f, a, limit, cursor);
      var r := OneRemains(f, a, limit, cursor);
    }
  }

  lemma OthersAreOlder(f: Fetch, a: Uuid, limit: nat, cursor: Option<string>)
    requires f.lookup <= f.ledger && IdsUnique(f.ledger) && limit > 0
    requires Page(f.lookup, f.ledger, a, limit, cursor).1.Some?
    ensures var items := Page(f.lookup, f.ledger, a, limit, cursor).0;
            forall r, x ::
              r in f.ledger && r.account == a && Past(r, Position(f.lookup, cursor)) && r !in items && x in items ==>
                OlderThan(r, MarkOf(x))
  {
    var items := Page(f.lookup, f.ledger, a, limit, cursor).0;
    PageRows(f, a, limit, cursor);
    forall r, x | r in f.ledger && r.account == a && Past(r, Position(f.lookup, cursor)) && r !in items && x in items
      ensures OlderThan(r, MarkOf(x))
    {
      var k :| 0 <= k < |items| && items[k] == x;
      assert OlderThan(r, MarkOf(items[limit - 1]));
      if k < limit - 1 { assert OlderThan(items[limit - 1], MarkOf(items[k])); }
    }
  }

  lemma OneRemains(f: Fetch, a: Uuid, limit: nat, cursor: Option<string>) returns (r: Row)
    requires f.lookup <= f.ledger && IdsUnique(f.ledger) && limit > 0
    requires Page(f.lookup, f.ledger, a, limit, cursor).1.Some?
    ensures r in f.ledger && r.account == a && Past(r, Position(f.lookup, cursor))
    ensures r !in Page(f.lookup, f.ledger, a, limit, cursor).0
  {
    var rest := From(History(f.ledger, a), Position(f.lookup, cursor));
    MatchingIsSorted(f.ledger, Query(a, None, None));
    FromSelects(History(f.ledger, a), Position(f.lookup, cursor));
    r := rest[limit];
    assert r in rest;
    forall k | 0 <= k < limit
      ensures rest[..limit][k] != r
    {
      assert OlderThan(rest[limit], MarkOf(rest[k]));
    }
  }

  /** A cursor that is absent, malformed or names no row starts at the newest row. */
  lemma UnknownCursorStartsOver(lookup: seq<Row>, ledger: seq<Row>, a: Uuid, limit: nat, cursor: Option<string>)
    requires cursor.None? || DecodeCursor(cursor.value).None?
             || forall r :: r in lookup ==> r.id != DecodeCursor(cursor.value).value
    ensures Page(lookup, ledger, a, limit, cursor) == Page(lookup, ledger, a, limit, None)
  {
  }

  /** A whole walk, on the columns. */
  lemma WholeWalkNewestFirst(fetches: seq<Fetch>, ledger: seq<Row>, a: Uuid, limit: nat)
    requires IdsUnique(ledger) && limit > 0 && |fetches| > |History(ledger, a)|
    requires forall i :: 0 <= i < |fetches| ==> fetches[i] == Fetch(ledger, ledger)
    ensures var s := Flat(Walk(fetches, a, limit, None).0);
            && (forall i, j :: 0 <= i < j < |s| ==>
                  s[j].createdAt < s[i].createdAt || (s[j].createdAt == s[i].createdAt && s[j].id < s[i].id))
            && (forall r :: r in s <==> r in ledger && r.account == a)
  {
    WholeWalk(fetches, ledger, a, limit);
    DescendingOnColumns(Flat(Walk(fetches, a, limit, None).0));
  }

  /** A walk over a growing ledger, on the columns. */
  lemma GrowingWalkNewestFirst(fetches: seq<Fetch>, a: Uuid, limit: nat)
    requires Growing(fetches) && |fetches| > 0 && limit > 0
    ensures var (pages, done) := Walk(fetches, a, limit, None);
            var s := Flat(pages);
            && (forall i, j :: 0 <= i < j < |s| ==>
                  s[j].createdAt < s[i].createdAt || (s[j].createdAt == s[i].createdAt && s[j].id < s[i].id))
            && (forall r :: r in s ==> r in fetches[|fetches| - 1].ledger && r.account == a)
            && (done ==> forall r :: r in fetches[0].lookup && r.account == a ==> r in s)
  {
    GrowingWalk(fetches, a, limit, None);
    DescendingOnColumns(Flat(Walk(fetches, a, limit, None).0));
  }

  // ---------------------------------------------------------------------------
  // Snapshots of the protocol's runs
  // ---------------------------------------------------------------------------

  /** Every row a commit log plans, in order. */
  function LogRows(log: seq<Request>): seq<Row>
  {
    if |log| == 0 then [] else LogRows(log[..|log| - 1]) + PlannedRows(log[|log| - 1])
  }

  lemma {:induction false} LedgerIsLogRows(log: seq<Request>)
    requires AllAccepted(EMPTY_BANK, log)
    ensures Replay(EMPTY_BANK, log).ledger == LogRows(log)
  {
    if |log| > 0 {
      LedgerIsLogRows(log[..|log| - 1]);
      AcceptedMeans(Replay(EMPTY_BANK, log[..|log| - 1]), log[|log| - 1]);
    }
  }

  lemma LogStep(w: World, moves: seq<Move>)
    requires |moves| > 0
    ensures LogRows(CommitLog(w, moves[..|moves| - 1])) <= LogRows(CommitLog(w, moves))
  {
    var before, log := CommitLog(w, moves[..|moves| - 1]), CommitLog(w, moves);
    assert log == before || (|log| == |before| + 1 && log[..|log| - 1] == before);
  }

  lemma {:induction false} LogGrows(w: World, moves: seq<Move>, n: nat)
    requires n <= |moves|
    ensures LogRows(CommitLog(w, moves[..n])) <= LogRows(CommitLog(w, moves))
    decreases |moves|
  {
    if n == |moves| {
      assert moves[..n] == moves;
    } else {
      var front := moves[..|moves| - 1];
      LogGrows(w, front, n);
      assert front[..n] == moves[..n];
      LogStep(w, moves);
    }
  }

  /** Two snapshots taken at any two moments of any run from the empty bank: the earlier is a
      prefix of the later, as a walk assumes; and row ids are unique when those drawn by the
      requests are. */
  lemma SnapshotsGrow(moves: seq<Move>, m: nat, n: nat)
    requires m <= n <= |moves|
    requires IdsUnique(LogRows(SerialLog(moves)))
    ensures Reached(moves[..m]).bank.ledger <= Reached(moves[..n]).bank.ledger
    ensures IdsUnique(Reached(moves[..n]).bank.ledger)
  {
    ReachedIsSerial(moves[..m]);
    ReachedIsSerial(moves[..n]);
    LedgerIsLogRows(SerialLog(moves[..m]));
    LedgerIsLogRows(SerialLog(moves[..n]));
    LogGrows(Quiet(EMPTY_BANK), moves[..n], m);
    assert moves[..n][..m] == moves[..m];
    LogGrows(Quiet(EMPTY_BANK), moves, n);
    PrefixUnique(LogRows(SerialLog(moves[..n])), LogRows(SerialLog(moves)));
  }
}
