/**
 * Keyset pages of stored checks, newest first, and the client loop that follows the cursors
 * to the end while other requests store more checks.
 */
module Keyset {
  import opened Prelude
  import opened Records

  datatype Verdict = AiGenerated | Uncertain | HumanWritten

  datatype Row = Row(id: nat, actor: Uid, batch: Option<Bid>, verdict: Verdict, createdAt: Time)

  /** The optional filters of a listing. */
  datatype Filter = Filter(actor: Option<Uid>, verdict: Option<Verdict>, batch: Option<Bid>, from: Option<Time>,
                           to: Option<Time>)

  /** A listing asked for by one user. */
  datatype Query = Query(me: Uid, user: User, filter: Filter)

  /** A root admin sees everything, narrowed by `actor`; anyone else what they own, whatever `actor` says. */
  predicate Shown(q: Query, r: Row) {
    && (if q.user.role.RootAdmin? then q.filter.actor.None? || r.actor == q.filter.actor.value
        else q.user.Owns(q.me, r.actor, r.createdAt))
    && (q.filter.verdict.None? || r.verdict == q.filter.verdict.value)
    && (q.filter.batch.None? || r.batch == q.filter.batch)
    && (q.filter.from.None? || r.createdAt >= q.filter.from.value)
    && (q.filter.to.None? || r.createdAt <= q.filter.to.value)
  }

  /** The order of the history: later first, the larger id on equal times. */
  predicate Newer(a: Row, b: Row) {
    a.createdAt > b.createdAt || (a.createdAt == b.createdAt && a.id > b.id)
  }

  ghost predicate Descending(rows: seq<Row>) {
    forall i, j :: 0 <= i < j < |rows| ==> Newer(rows[i], rows[j])
  }

  ghost predicate UniqueIds(table: seq<Row>) {
    forall i, j :: 0 <= i < |table| && 0 <= j < |table| && table[i].id == table[j].id ==> i == j
  }

  predicate Past(anchor: Option<Row>, r: Row) {
    anchor.None? || Newer(anchor.value, r)
  }

  // ---- the query

  function Matching(table: seq<Row>, q: Query, anchor: Option<Row>): seq<Row> {
    if table == [] then []
    else
      var rest := Matching(table[..|table| - 1], q, anchor);
      var r := table[|table| - 1];
      if Shown(q, r) && Past(anchor, r) then rest + [r] else rest
  }

  function Insert(r: Row, rows: seq<Row>): seq<Row> {
    if rows == [] || Newer(r, rows[0]) then [r] + rows else [rows[0]] + Insert(r, rows[1..])
  }

  /** The rows in history order. */
  function Ordered(rows: seq<Row>): seq<Row> {
    if rows == [] then [] else Insert(rows[|rows| - 1], Ordered(rows[..|rows| - 1]))
  }

  lemma {:induction false} MatchingIsExact(table: seq<Row>, q: Query, anchor: Option<Row>)
    requires UniqueIds(table)
    ensures UniqueIds(Matching(table, q, anchor))
    ensures forall r :: r in Matching(table, q, anchor) <==> r in table && Shown(q, r) && Past(anchor, r)
  {
    if table != [] {
      var front, last := table[..|table| - 1], table[|table| - 1];
      MatchingIsExact(front, q, anchor);
      assert table == front + [last];
      assert forall r :: r in front ==> r.id != last.id;
    }
  }

  lemma {:induction false} InsertKeepsOrder(r: Row, rows: seq<Row>)
    requires Descending(rows) && forall s :: s in rows ==> s.id != r.id
    ensures Descending(Insert(r, rows))
    ensures forall s :: s in Insert(r, rows) <==> s == r || s in rows
  {
    if rows != [] && !Newer(r, rows[0]) {
      InsertKeepsOrder(r, rows[1..]);
      assert rows == [rows[0]] + rows[1..];
      var tail := Insert(r, rows[1..]);
      assert forall i :: 0 <= i < |tail| ==> tail[i] in tail;
      assert forall s :: s in rows[1..] ==> Newer(rows[0], s);
    }
  }

  lemma {:induction false} OrderedIsDescending(rows: seq<Row>)
    requires UniqueIds(rows)
    ensures Descending(Ordered(rows))
    ensures forall r :: r in Ordered(rows) <==> r in rows
  {
    if rows != [] {
      var front, last := rows[..|rows| - 1], rows[|rows| - 1];
      OrderedIsDescending(front);
      assert rows == front + [last];
      assert forall r :: r in front ==> r.id != last.id;
      InsertKeepsOrder(last, Ordered(front));
    }
  }

  lemma NewestIsFirst(a: seq<Row>, b: seq<Row>)
    requires Descending(a) && Descending(b) && a != [] && b != []
    requires forall r :: r in a <==> r in b
    ensures a[0] == b[0] && forall r :: r in a[1..] <==> r in b[1..]
  {
    assert a[0] in b && b[0] in a;
    assert a == [a[0]] + a[1..] && b == [b[0]] + b[1..];
    assert a[0] !in a[1..] && b[0] !in b[1..];
    forall r ensures r in a[1..] <==> r in b[1..] {
      assert r in a[1..] <==> r in a && r != a[0];
      assert r in b[1..] <==> r in b && r != b[0];
    }
  }

  lemma EmptyTogether(a: seq<Row>, b: seq<Row>)
    requires forall r :: r in a <==> r in b
    ensures a == [] <==> b == []
  {
    if a != [] {
      assert a[0] in a;
    }
    if b != [] {
      assert b[0] in b;
    }
  }

  /** Only one descending list holds given rows. */
  lemma {:induction false} OneOrder(a: seq<Row>, b: seq<Row>)
    requires Descending(a) && Descending(b) && forall r :: r in a <==> r in b
    ensures a == b
  {
    EmptyTogether(a, b);
    if a != [] {
      NewestIsFirst(a, b);
      OneOrder(a[1..], b[1..]);
    }
  }

  // ---- one page

  datatype Page = Page(items: seq<Row>, next: Option<nat>)

  datatype BadCursor = BadCursor

  /** The shown rows past the anchor, newest first, up to the page's end; `next` names the last when more follow. */
  ghost predicate PageOf(table: seq<Row>, q: Query, anchor: Option<Row>, limit: nat, page: Page) {
    && Descending(page.items) && |page.items| <= limit
    && (forall r :: r in page.items ==> r in table && Shown(q, r) && Past(anchor, r))
    && (page.next.None? ==> forall r :: r in table && Shown(q, r) && Past(anchor, r) ==> r in page.items)
    && (page.next.Some? ==>
          && |page.items| == limit > 0 && page.next.value == page.items[limit - 1].id
          && (forall r :: r in table && Shown(q, r) && Past(anchor, r) ==>
                r in page.items || Newer(page.items[limit - 1], r))
          && exists r :: r in table && Shown(q, r) && Newer(page.items[limit - 1], r))
  }

  lemma PrefixIsPage(table: seq<Row>, q: Query, anchor: Option<Row>, limit: nat, all: seq<Row>)
    requires limit > 0 && Descending(all)
    requires forall r :: r in all <==> r in table && Shown(q, r) && Past(anchor, r)
    ensures PageOf(table, q, anchor, limit,
                   if |all| > limit then Page(all[..limit], Some(all[limit - 1].id)) else Page(all, None))
  {
    if |all| > limit {
      var items := all[..limit];
      assert items[limit - 1] == all[limit - 1];
      assert all == items + all[limit..];
      forall r | r in all[limit..] ensures Newer(items[limit - 1], r) {
      }
      assert all[limit] in all && Newer(items[limit - 1], all[limit]);
    }
  }

  /** Asks for one row more than the page holds, to see whether another page follows. */
  method FetchPage(table: seq<Row>, q: Query, anchor: Option<Row>, limit: nat) returns (page: Page)
    requires UniqueIds(table) && limit >= 1
    ensures PageOf(table, q, anchor, limit, page)
  {
    var all := Ordered(Matching(table, q, anchor));
    MatchingIsExact(table, q, anchor);
    OrderedIsDescending(Matching(table, q, anchor));
    PrefixIsPage(table, q, anchor, limit, all);
    var rows := if |all| > limit + 1 then all[..limit + 1] else all;
    var next: Option<nat> := None;
    if |rows| > limit {
      rows := rows[..limit];
      next := Some(rows[|rows| - 1].id);
    }
    page := Page(rows, next);
  }

  /** The anchor is looked up among all rows, shown or not; an unknown one is refused. */
  method ListChecks(table: seq<Row>, q: Query, cursor: Option<nat>, limit: nat) returns (r: Result<Page, BadCursor>)
    requires UniqueIds(table) && limit >= 1
    ensures r.Err? <==> cursor.Some? && forall a :: a in table ==> a.id != cursor.value
    ensures r.Ok? && cursor.None? ==> PageOf(table, q, None, limit, r.value)
    ensures forall a :: r.Ok? && a in table && cursor == Some(a.id) ==> PageOf(table, q, Some(a), limit, r.value)
  {
    var anchor: Option<Row> := None;
    if cursor.Some? {
      if a :| a in table && a.id == cursor.value {
        anchor := Some(a);
        assert forall b :: b in table && b.id == cursor.value ==> b == a;
      } else {
        return Err(BadCursor);
      }
    }
    var page := FetchPage(table, q, anchor, limit);
    r := Ok(page);
  }

  // ---- following the cursors to the end

  /** Rows stored by other requests, listed by the page before which they appear. */
  function Flat(arrivals: seq<seq<Row>>): seq<Row> {
    if arrivals == [] then [] else arrivals[0] + Flat(arrivals[1..])
  }

  /** What has been read so far is in order and misses no row of the first table that lies before the cursor. */
  ghost predicate ReadSoFar(first: seq<Row>, table: seq<Row>, q: Query, rows: seq<Row>, cursor: Option<nat>) {
    && Descending(rows)
    && (forall r :: r in rows ==> r in table && Shown(q, r))
    && (cursor.Some? ==> rows != [] && rows[|rows| - 1].id == cursor.value)
    && (forall r :: r in first && Shown(q, r) ==>
          r in rows || (cursor.Some? && Newer(rows[|rows| - 1], r)))
  }

  /** One more page behind what was read. */
  lemma NextPage(first: seq<Row>, table: seq<Row>, q: Query, rows: seq<Row>, cursor: nat, limit: nat, page: Page)
    requires ReadSoFar(first, table, q, rows, Some(cursor)) && forall r :: r in first ==> r in table
    requires PageOf(table, q, Some(rows[|rows| - 1]), limit, page)
    ensures ReadSoFar(first, table, q, rows + page.items, page.next)
  {
    var anchor := rows[|rows| - 1];
    forall i, j | 0 <= i < |rows| && 0 <= j < |page.items| ensures Newer(rows[i], page.items[j]) {
      assert page.items[j] in page.items;
      assert i < |rows| - 1 ==> Newer(rows[i], anchor);
    }
  }

  lemma {:induction false} DescendingFits(rows: seq<Row>, table: seq<Row>)
    requires Descending(rows) && forall r :: r in rows ==> r in table
    ensures |rows| <= |table|
  {
    DistinctSize(rows);
    RepeatsShrink(table);
    SubsetSize(Elements(rows), Elements(table));
  }

  /** Every row stored while reading lies before all that the first page was read from. */
  ghost predicate OnlyNewer(first: seq<Row>, arrivals: seq<Row>) {
    forall a, r :: a in arrivals && r in first ==> Newer(a, r)
  }

  /** The whole history read under newer arrivals only is the first table's, ordered. */
  lemma ReadToTheEnd(first: seq<Row>, q: Query, table: seq<Row>, rows: seq<Row>)
    requires UniqueIds(first) && ReadSoFar(first, table, q, rows, None)
    requires forall r :: r in rows ==> r in first
    ensures rows == Ordered(Matching(first, q, None))
  {
    MatchingIsExact(first, q, None);
    OrderedIsDescending(Matching(first, q, None));
    OneOrder(rows, Ordered(Matching(first, q, None)));
  }

  /** Reads the page behind the cursor. */
  method FollowCursor(first: seq<Row>, ghost arrivals: seq<Row>, table: seq<Row>, q: Query, rows: seq<Row>,
                      cursor: nat, limit: nat)
    returns (rows': seq<Row>, cursor': Option<nat>)
    requires limit >= 1 && UniqueIds(table) && ReadSoFar(first, table, q, rows, Some(cursor))
    requires forall r :: r in first ==> r in table
    requires forall r :: r in table ==> r in first || r in arrivals
    requires OnlyNewer(first, arrivals) ==> forall r :: r in rows ==> r in first
    ensures ReadSoFar(first, table, q, rows', cursor')
    ensures OnlyNewer(first, arrivals) ==> forall r :: r in rows' ==> r in first
    ensures cursor'.Some? ==> |rows'| > |rows|
  {
    var anchor := rows[|rows| - 1];
    assert anchor in rows;
    var result := ListChecks(table, q, Some(cursor), limit);
    var page := result.value;
    NextPage(first, table, q, rows, cursor, limit, page);
    rows', cursor' := rows + page.items, page.next;
  }

  /**
   * Follows the cursors until there is none. Whatever is stored between two pages, with whatever
   * times, no row is repeated and no row of the first table is missed; when only newer rows are
   * stored, exactly the first table's rows are read.
   */
  method ListHistory(first: seq<Row>, arrivals: seq<seq<Row>>, q: Query, limit: nat) returns (rows: seq<Row>)
    requires UniqueIds(first + Flat(arrivals)) && limit >= 1
    ensures Descending(rows)
    ensures forall r :: r in first && Shown(q, r) ==> r in rows
    ensures forall r :: r in rows ==> (r in first || r in Flat(arrivals)) && Shown(q, r)
    ensures forall i, j :: 0 <= i < j < |rows| ==>
      rows[i].createdAt > rows[j].createdAt || (rows[i].createdAt == rows[j].createdAt && rows[i].id > rows[j].id)
    ensures OnlyNewer(first, Flat(arrivals)) ==> rows == Ordered(Matching(first, q, None))
  {
    ghost var total := first + Flat(arrivals);
    var table := first;
    var pending := arrivals;
    UniqueInPart(first, Flat(arrivals));
    var page := FetchPage(table, q, None, limit);
    rows := page.items;
    var cursor := page.next;
    DescendingFits(rows, total);
    while cursor.Some?
      invariant table + Flat(pending) == total && |table| >= |first| && table[..|first|] == first
      invariant ReadSoFar(first, table, q, rows, cursor) && |rows| <= |total|
      invariant forall r :: r in table ==> r in first || r in Flat(arrivals)
      invariant OnlyNewer(first, Flat(arrivals)) ==> forall r :: r in rows ==> r in first
      decreases if cursor.Some? then |total| - |rows| + 1 else 0
    {
      if pending != [] {
        FlatStep(table, pending);
        table := table + pending[0];
        pending := pending[1..];
      }
      UniqueInPart(table, Flat(pending));
      PartOfTotal(first, arrivals, table, pending);
      rows, cursor := FollowCursor(first, Flat(arrivals), table, q, rows, cursor.value, limit);
      DescendingFits(rows, total);
    }
    if OnlyNewer(first, Flat(arrivals)) {
      ReadToTheEnd(first, q, table, rows);
    }
  }

  lemma UniqueInPart(part: seq<Row>, rest: seq<Row>)
    requires UniqueIds(part + rest)
    ensures UniqueIds(part)
  {
    forall i, j | 0 <= i < |part| && 0 <= j < |part| && part[i].id == part[j].id ensures i == j {
      assert (part + rest)[i] == part[i] && (part + rest)[j] == part[j];
    }
  }

  lemma FlatStep(table: seq<Row>, pending: seq<seq<Row>>)
    requires pending != []
    ensures (table + pending[0]) + Flat(pending[1..]) == table + Flat(pending)
  {
  }

  lemma PartOfTotal(first: seq<Row>, arrivals: seq<seq<Row>>, table: seq<Row>, pending: seq<seq<Row>>)
    requires table + Flat(pending) == first + Flat(arrivals)
    ensures forall r :: r in table ==> r in first || r in Flat(arrivals)
  {
    forall r | r in table ensures r in first || r in Flat(arrivals) {
      assert r in table + Flat(pending);
    }
  }

  // ---- who sees what

  /** The part of a row's visibility that comes from the filters. */
  predicate Passes(f: Filter, r: Row) {
    && (f.verdict == None || f.verdict == Some(r.verdict)) && (f.batch == None || f.batch == r.batch)
    && (f.from.Some? ==> f.from.value <= r.createdAt) && (f.to.Some? ==> r.createdAt <= f.to.value)
  }

  /**
   * A root admin sees every row, of one author if asked to; anyone else exactly their own since
   * they were re-provisioned.
   */
  lemma WhoSeesWhat(q: Query, r: Row)
    ensures q.user.role == RootAdmin ==>
      (Shown(q, r) <==> Passes(q.filter, r) && (q.filter.actor == None || q.filter.actor == Some(r.actor)))
    ensures q.user.role != RootAdmin ==>
      (Shown(q, r) <==> Passes(q.filter, r) && r.actor == q.me
                        && (q.user.reprovisionedAt.Some? ==> q.user.reprovisionedAt.value <= r.createdAt))
  {
  }
}
